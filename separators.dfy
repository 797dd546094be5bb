/**
 * The paragraph separators of a rendered reply (src/view.ts:305-321): after
 * the reply's Markdown is rendered into the message block, a `<br>` is
 * inserted before every `<p>` whose previous element sibling is a `<p>`.
 * One sibling list is modelled: the element children of the message block,
 * as their kinds; text nodes between elements play no part in the
 * `nextElementSibling` test.
 */
module ParagraphBreaks {

  /** The kind of an element child: a paragraph, a line break, or any
      other element Markdown produces (a list, a heading, a `<pre>`, ...). */
  datatype Kind = P | Br | Other(tag: string)

  /** A child after the pass: an element that was there before, or a `<br>`
      the pass created. Keeping the two apart lets the contracts say that no
      original element was dropped or moved. */
  datatype Node = Orig(kind: Kind) | Inserted

  /** The original children, in order, as they first appear in the block. */
  function Olds(s: seq<Kind>): (ns: seq<Node>)
    ensures |ns| == |s|
  {
    if s == [] then [] else [Orig(s[0])] + Olds(s[1..])
  }

  /** The original elements among `ns`, in order; inserted breaks are skipped. */
  function Originals(ns: seq<Node>): seq<Kind> {
    if ns == [] then [] else OriginalOf(ns[0]) + Originals(ns[1..])
  }

  function OriginalOf(n: Node): seq<Kind> {
    if n.Orig? then [n.kind] else []
  }

  /** The child at `i` is a paragraph directly followed by a paragraph. */
  predicate NeedsBreak(s: seq<Kind>, i: nat) {
    i + 1 < |s| && s[i] == P && s[i + 1] == P
  }

  /** The output for child `i`: the child itself, then a break when it is a
      paragraph followed by a paragraph. */
  function Block(s: seq<Kind>, i: nat): seq<Node>
    requires i < |s|
  {
    [Orig(s[i])] + if NeedsBreak(s, i) then [Inserted] else []
  }

  /** The children once the first `i` children of the block have been visited. */
  function SeparatedUpTo(s: seq<Kind>, i: nat): (r: seq<Node>)
    requires i <= |s|
    ensures i > 0 ==> |r| > 0 && r[|r| - 1] == (if NeedsBreak(s, i - 1) then Inserted else Orig(s[i - 1]))
  {
    if i == 0 then [] else SeparatedUpTo(s, i - 1) + Block(s, i - 1)
  }

  /** The children after the whole pass. Nothing original is lost or
      reordered: dropping the inserted breaks gives back the children as
      they were. */
  function Separated(s: seq<Kind>): (r: seq<Node>)
    ensures Originals(r) == s
  {
    SeparatedUpToOriginals(s, |s|);
    SeparatedUpTo(s, |s|)
  }

  /** The in-place pass (src/view.ts:307-321). It walks the block's children
      in order; at a paragraph whose next sibling in the current list is a
      paragraph it inserts a break in front of that sibling, and it steps
      over the break it made. */
  method InsertBreaks(children: seq<Kind>) returns (nodes: seq<Node>)
    ensures nodes == Separated(children)
  {
    nodes := Olds(children);
    var i, j := 0, 0;
    assert children[i..] == children;
    while i < |children|
      invariant 0 <= i <= |children|
      invariant j == |SeparatedUpTo(children, i)|
      invariant nodes == SeparatedUpTo(children, i) + Olds(children[i..])
    {
      VisitStep(children, i, nodes);
      if nodes[j] == Orig(P) && j + 1 < |nodes| && nodes[j + 1] == Orig(P) {
        assert NeedsBreak(children, i);
        nodes := nodes[..j + 1] + [Inserted] + nodes[j + 1..];
        j := j + 2;
      } else {
        assert !NeedsBreak(children, i);
        j := j + 1;
      }
      i := i + 1;
    }
  }

  /** One visit of the pass, on the list as it stands after `i` visits. */
  lemma VisitStep(s: seq<Kind>, i: nat, nodes: seq<Node>)
    requires i < |s| && nodes == SeparatedUpTo(s, i) + Olds(s[i..])
    ensures var j := |SeparatedUpTo(s, i)|;
      j < |nodes| && nodes[j] == Orig(s[i]) &&
      (j + 1 < |nodes| <==> i + 1 < |s|) &&
      (j + 1 < |nodes| ==> nodes[j + 1] == Orig(s[i + 1]))
    ensures var j := |SeparatedUpTo(s, i)|;
      NeedsBreak(s, i) ==>
        |SeparatedUpTo(s, i + 1)| == j + 2 &&
        nodes[..j + 1] + [Inserted] + nodes[j + 1..] == SeparatedUpTo(s, i + 1) + Olds(s[i + 1..])
    ensures var j := |SeparatedUpTo(s, i)|;
      !NeedsBreak(s, i) ==>
        |SeparatedUpTo(s, i + 1)| == j + 1 &&
        nodes == SeparatedUpTo(s, i + 1) + Olds(s[i + 1..])
  {
    var prev := SeparatedUpTo(s, i);
    var j := |prev|;
    var rest := Olds(s[i + 1..]);
    assert s[i..][1..] == s[i + 1..];
    assert Olds(s[i..]) == [Orig(s[i])] + rest;
    assert nodes == prev + [Orig(s[i])] + rest;
    assert nodes[j] == Orig(s[i]);
    if i + 1 < |s| {
      assert s[i + 1..][0] == s[i + 1];
      assert rest[0] == Orig(s[i + 1]);
    }
    assert SeparatedUpTo(s, i + 1) == prev + Block(s, i);
    if NeedsBreak(s, i) {
      assert Block(s, i) == [Orig(s[i]), Inserted];
      assert nodes[..j + 1] == prev + [Orig(s[i])];
      assert nodes[j + 1..] == rest;
      assert nodes[..j + 1] + [Inserted] + nodes[j + 1..] == (prev + Block(s, i)) + rest;
    } else {
      assert Block(s, i) == [Orig(s[i])];
      assert nodes == (prev + Block(s, i)) + rest;
    }
  }

  lemma {:induction false} OriginalsAppend(a: seq<Node>, b: seq<Node>)
    ensures Originals(a + b) == Originals(a) + Originals(b)
  {
    if a != [] {
      assert (a + b)[0] == a[0];
      assert (a + b)[1..] == a[1..] + b;
      OriginalsAppend(a[1..], b);
    } else {
      assert a + b == b;
    }
  }

  /** After `i` visits the original children so far are all there, in order. */
  lemma {:induction false} SeparatedUpToOriginals(s: seq<Kind>, i: nat)
    requires i <= |s|
    ensures Originals(SeparatedUpTo(s, i)) == s[..i]
  {
    if i == 0 {
      assert s[..i] == [];
    } else {
      SeparatedUpToOriginals(s, i - 1);
      var prev := SeparatedUpTo(s, i - 1);
      var b := Block(s, i - 1);
      OriginalsAppend(prev, b);
      assert Originals(b) == [s[i - 1]] by {
        assert Originals(b) == OriginalOf(b[0]) + Originals(b[1..]);
        if NeedsBreak(s, i - 1) {
          assert b[1..] == [Inserted];
          assert Originals([Inserted]) == OriginalOf(Inserted) + Originals([]);
        } else {
          assert b[1..] == [];
        }
      }
      assert s[..i] == s[..i - 1] + [s[i - 1]];
    }
  }

  /** Every inserted break has a paragraph right before it and, unless it
      is last, a paragraph right after it. */
  predicate BreaksFollowParagraphs(r: seq<Node>) {
    forall k :: 0 <= k < |r| && r[k] == Inserted ==>
      0 < k && r[k - 1] == Orig(P) && (k + 1 < |r| ==> r[k + 1] == Orig(P))
  }

  /** No two original paragraphs stand next to each other. */
  predicate NoTouchingParagraphs(r: seq<Node>) {
    forall k :: 0 <= k < |r| - 1 ==> !(r[k] == Orig(P) && r[k + 1] == Orig(P))
  }

  /** Every inserted break stands between two paragraphs. */
  predicate BreaksBetweenParagraphs(r: seq<Node>) {
    forall k :: 0 <= k < |r| && r[k] == Inserted ==>
      0 < k < |r| - 1 && r[k - 1] == Orig(P) && r[k + 1] == Orig(P)
  }

  lemma {:induction false} SeparatedUpToBreaksFollowParagraphs(s: seq<Kind>, i: nat)
    requires i <= |s|
    ensures BreaksFollowParagraphs(SeparatedUpTo(s, i))
  {
    if i > 0 {
      SeparatedUpToBreaksFollowParagraphs(s, i - 1);
      var prev := SeparatedUpTo(s, i - 1);
      var r := prev + Block(s, i - 1);
      assert r == SeparatedUpTo(s, i);
      forall k | 0 <= k < |r| && r[k] == Inserted
        ensures 0 < k && r[k - 1] == Orig(P) && (k + 1 < |r| ==> r[k + 1] == Orig(P))
      {
        if k < |prev| {
          assert r[k] == prev[k];
          assert r[k - 1] == prev[k - 1];
          if k + 1 == |prev| {
            assert NeedsBreak(s, i - 2);
            assert r[k + 1] == Orig(s[i - 1]);
          } else {
            assert r[k + 1] == prev[k + 1];
          }
        } else {
          assert k == |prev| + 1 && NeedsBreak(s, i - 1);
        }
      }
    }
  }

  lemma {:induction false} SeparatedUpToNoTouchingParagraphs(s: seq<Kind>, i: nat)
    requires i <= |s|
    ensures NoTouchingParagraphs(SeparatedUpTo(s, i))
  {
    if i > 0 {
      SeparatedUpToNoTouchingParagraphs(s, i - 1);
      var prev := SeparatedUpTo(s, i - 1);
      var r := prev + Block(s, i - 1);
      assert r == SeparatedUpTo(s, i);
      forall k | 0 <= k < |r| - 1
        ensures !(r[k] == Orig(P) && r[k + 1] == Orig(P))
      {
        if k + 1 < |prev| {
          assert r[k] == prev[k] && r[k + 1] == prev[k + 1];
        } else if k + 1 == |prev| && r[k] == Orig(P) {
          assert prev[k] == Orig(s[i - 2]) && !NeedsBreak(s, i - 2);
          assert r[k + 1] == Orig(s[i - 1]);
        }
      }
    }
  }

  /** After the pass every inserted break stands between two paragraphs,
      and no two paragraphs are adjacent any more: between two originally
      adjacent paragraphs there is exactly one inserted break, and nowhere
      else is there one. */
  lemma SeparatedBreaksExactlyBetweenParagraphs(s: seq<Kind>)
    ensures BreaksBetweenParagraphs(Separated(s))
    ensures NoTouchingParagraphs(Separated(s))
  {
    SeparatedUpToBreaksFollowParagraphs(s, |s|);
    SeparatedUpToNoTouchingParagraphs(s, |s|);
    var r := Separated(s);
    forall k | 0 <= k < |r| && r[k] == Inserted
      ensures 0 < k < |r| - 1 && r[k - 1] == Orig(P) && r[k + 1] == Orig(P)
    {
      assert k + 1 < |r|;
    }
  }

  /** The pass adds one break per pair of adjacent paragraphs. */
  function PairCount(s: seq<Kind>, i: nat): nat
    requires i <= |s|
  {
    if i == 0 then 0 else PairCount(s, i - 1) + if NeedsBreak(s, i - 1) then 1 else 0
  }

  lemma {:induction false} SeparatedLength(s: seq<Kind>, i: nat)
    requires i <= |s|
    ensures |SeparatedUpTo(s, i)| == i + PairCount(s, i)
  {
    if i > 0 {
      SeparatedLength(s, i - 1);
    }
  }
}
