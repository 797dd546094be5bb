/**
 * The small string computations of the chat view: JavaScript's `trim`, the
 * per-line rebuild of a user message, the model label shown under the
 * chatbot's name, and the language tag read off a code block's class name.
 * Strings are sequences of characters; no encoding is modelled.
 */
module JsStrings {

  datatype Option<T> = None | Some(value: T)

  /** The characters ECMAScript's `String.prototype.trim` removes:
      WhiteSpace (tab, vertical tab, form feed, space, no-break space,
      the byte order mark and the Unicode space separators) and
      LineTerminator (line feed, carriage return, U+2028, U+2029). */
  predicate IsWhite(c: char) {
    c == '\t' || c == '\n' || c == '\U{B}' || c == '\U{C}' || c == '\r' ||
    c == ' ' || c == '\U{A0}' || c == '\U{1680}' ||
    ('\U{2000}' <= c <= '\U{200A}') ||
    c == '\U{2028}' || c == '\U{2029}' || c == '\U{202F}' || c == '\U{205F}' ||
    c == '\U{3000}' || c == '\U{FEFF}'
  }

  predicate AllWhite(s: string) {
    forall k :: 0 <= k < |s| ==> IsWhite(s[k])
  }

  /** Drops the leading white space: what is left is a suffix of `s` that
      starts with a non-white character, and everything dropped is white. */
  function TrimStart(s: string): (r: string)
    ensures |r| <= |s| && r == s[|s| - |r|..]
    ensures AllWhite(s[..|s| - |r|])
    ensures r != [] ==> !IsWhite(r[0])
  {
    if s != [] && IsWhite(s[0]) then TrimStart(s[1..]) else s
  }

  /** Drops the trailing white space: what is left is a prefix of `s` that
      ends with a non-white character, and everything dropped is white. */
  function TrimEnd(s: string): (r: string)
    ensures |r| <= |s| && r == s[..|r|]
    ensures AllWhite(s[|r|..])
    ensures r != [] ==> !IsWhite(r[|r| - 1])
  {
    if s != [] && IsWhite(s[|s| - 1]) then TrimEnd(s[..|s| - 1]) else s
  }

  /** `value.trim()` (src/view.ts:99). */
  function Trim(s: string): (r: string)
    ensures |r| <= |s|
    ensures r != [] ==> !IsWhite(r[0]) && !IsWhite(r[|r| - 1])
  {
    TrimEnd(TrimStart(s))
  }

  /** The trimmed text is one contiguous slice `s[i..j]` of the input, and
      exactly white space was cut from either side. */
  lemma TrimIsSlice(s: string) returns (i: nat, j: nat)
    ensures i <= j <= |s| && Trim(s) == s[i..j]
    ensures AllWhite(s[..i]) && AllWhite(s[j..])
  {
    var t := TrimStart(s);
    i := |s| - |t|;
    assert t == s[i..] && AllWhite(s[..i]);
    var u := TrimEnd(t);
    j := i + |u|;
    assert u == t[..|u|] && AllWhite(t[|u|..]);
    assert t[|u|..] == s[j..];
    assert t[..|u|] == s[i..j];
  }

  /** The trimmed text is empty exactly when the input is all white space,
      which is the "empty or just whitespace" test of src/view.ts:100. */
  lemma TrimEmptyIff(s: string)
    ensures Trim(s) == [] <==> AllWhite(s)
  {
    var i, j := TrimIsSlice(s);
    if Trim(s) == [] {
      assert i == j;
      assert s == s[..i] + s[j..];
      forall k | 0 <= k < |s| ensures IsWhite(s[k]) {
        if k < i { assert s[k] == s[..i][k]; } else { assert s[k] == s[j..][k - j]; }
      }
    } else {
      assert !IsWhite(s[i]);
    }
  }

  /** Trimming twice changes nothing. */
  lemma TrimIdempotent(s: string)
    ensures Trim(Trim(s)) == Trim(s)
  {
    var t := Trim(s);
    if t != [] {
      assert !IsWhite(t[0]) && !IsWhite(t[|t| - 1]);
      assert TrimStart(t) == t;
      assert TrimEnd(t) == t;
    }
  }

  /** `s.split("\n")`: the pieces between line feeds; an empty string gives
      one empty piece, and a trailing line feed gives a trailing empty piece. */
  function SplitLines(s: string): (lines: seq<string>)
    ensures |lines| >= 1
    ensures forall k :: 0 <= k < |lines| ==> '\n' !in lines[k]
  {
    if s == [] then [[]]
    else
      var rest := SplitLines(s[1..]);
      if s[0] == '\n' then [[]] + rest
      else [[s[0]] + rest[0]] + rest[1..]
  }

  /** `lines.join("\n")`. */
  function JoinLines(lines: seq<string>): string {
    if lines == [] then []
    else if |lines| == 1 then lines[0]
    else lines[0] + "\n" + JoinLines(lines[1..])
  }

  /** Splitting on line feeds and joining again gives the input back. */
  lemma {:induction false} SplitThenJoin(s: string)
    ensures JoinLines(SplitLines(s)) == s
  {
    if s != [] {
      var rest := SplitLines(s[1..]);
      SplitThenJoin(s[1..]);
      if s[0] == '\n' {
        assert SplitLines(s)[1..] == rest;
      } else {
        var lines := SplitLines(s);
        assert lines[1..] == rest[1..];
        if |rest| == 1 {
          assert JoinLines(rest) == rest[0];
        } else {
          assert JoinLines(rest) == rest[0] + "\n" + JoinLines(rest[1..]);
        }
      }
    }
  }

  /** One line of the rebuild at src/view.ts:120-123: a text node's content
      is the line itself; a non-empty line gets a line feed appended and an
      empty line becomes a lone line feed. */
  function RebuildLine(line: string): (r: string)
    ensures r == line + "\n"
  {
    if line != [] then line + "\n" else "\n"
  }

  /** `lines.map(RebuildLine).join('')`. */
  function Rebuild(lines: seq<string>): (r: string)
    ensures |r| >= |lines|
    ensures lines != [] ==> r[|r| - 1] == '\n'
  {
    if lines == [] then [] else RebuildLine(lines[0]) + Rebuild(lines[1..])
  }

  lemma {:induction false} RebuildIsJoin(lines: seq<string>)
    requires |lines| >= 1
    ensures Rebuild(lines) == JoinLines(lines) + "\n"
  {
    var head := RebuildLine(lines[0]);
    assert Rebuild(lines) == head + Rebuild(lines[1..]);
    if |lines| > 1 {
      RebuildIsJoin(lines[1..]);
      assert head + (JoinLines(lines[1..]) + "\n") == (lines[0] + "\n" + JoinLines(lines[1..])) + "\n";
    } else {
      assert Rebuild(lines[1..]) == [];
    }
  }

  /** The sanitized text shown in a user bubble (src/view.ts:120-123). */
  function SanitizedInput(input: string): (r: string)
    ensures r == input + "\n"
  {
    RebuildIsJoin(SplitLines(input));
    SplitThenJoin(input);
    Rebuild(SplitLines(input))
  }

  predicate IsGpt(c: char) {
    c == 'g' || c == 'p' || c == 't'
  }

  /** `toUpperCase` of a lower-case ASCII letter. */
  function AsciiUpper(c: char): (u: char)
    requires 'a' <= c <= 'z'
    ensures 'A' <= u <= 'Z' && u as int == c as int - 32
  {
    (c as int - 32) as char
  }

  /** `s.replace(/[gpt]/g, letter => letter.toUpperCase())`: each `g`, `p`
      and `t` becomes its capital, every other character and the length
      stay as they are, and no lower-case `g`, `p` or `t` is left. */
  function UpperGpt(s: string): (r: string)
    ensures |r| == |s|
    ensures forall i :: 0 <= i < |s| ==> if IsGpt(s[i]) then r[i] == AsciiUpper(s[i]) else r[i] == s[i]
    ensures forall i :: 0 <= i < |r| ==> !IsGpt(r[i])
  {
    if s == [] then []
    else [if IsGpt(s[0]) then AsciiUpper(s[0]) else s[0]] + UpperGpt(s[1..])
  }

  /** Upper-casing twice is upper-casing once. */
  lemma UpperGptIdempotent(s: string)
    ensures UpperGpt(UpperGpt(s)) == UpperGpt(s)
  {
    var r := UpperGpt(s);
    assert UpperGpt(r) == r;
  }

  const ModelPrefix := "Model: "

  /** The text of the model label (src/view.ts:53): `"Model: " + upper(model)
      || upper(defaultModel)`. The left operand of `||` is never empty, so
      the label is always built from the configured model. */
  function ModelLabel(model: string, defaultModel: string): (r: string)
    ensures |r| == |ModelPrefix| + |model| && r[..|ModelPrefix|] == ModelPrefix
    ensures forall i :: 0 <= i < |model| ==>
      if IsGpt(model[i]) then r[|ModelPrefix| + i] == AsciiUpper(model[i]) else r[|ModelPrefix| + i] == model[i]
    ensures forall i :: 0 <= i < |r| ==> !IsGpt(r[i])
  {
    var upper := UpperGpt(model);
    var primary := ModelPrefix + upper;
    assert primary[..|ModelPrefix|] == ModelPrefix;
    assert forall i :: 0 <= i < |model| ==> primary[|ModelPrefix| + i] == upper[i];
    assert forall i :: 0 <= i < |primary| ==> !IsGpt(primary[i]) by {
      forall i | 0 <= i < |primary| ensures !IsGpt(primary[i]) {
        if i >= |ModelPrefix| { assert primary[i] == upper[i - |ModelPrefix|]; }
      }
    }
    if primary != [] then primary else UpperGpt(defaultModel)
  }

  /** As written, the fallback never applies: an empty model name gives a
      label with nothing after the prefix, whatever the default model is. */
  lemma ModelLabelIgnoresDefault(defaultModel: string)
    ensures ModelLabel("", defaultModel) == ModelPrefix
  {
    assert UpperGpt("") == "";
  }

  /** The label the fallback evidently aims at, with `||` applied to the
      model names: the default model is shown when none is configured. */
  function ModelLabelWithFallback(model: string, defaultModel: string): (r: string)
    ensures model != "" ==> r == ModelPrefix + UpperGpt(model)
    ensures model == "" ==> r == ModelPrefix + UpperGpt(defaultModel)
    ensures (model != "" || defaultModel != "") ==> |r| > |ModelPrefix|
    ensures forall i :: 0 <= i < |r| ==> !IsGpt(r[i])
  {
    var configured := UpperGpt(model);
    ModelPrefix + if configured != "" then configured else UpperGpt(defaultModel)
  }

  /** Whenever a model is configured, the corrected label and the label as
      written agree: the two differ only for an empty model name. */
  lemma LabelsAgree(model: string, defaultModel: string)
    requires model != ""
    ensures ModelLabel(model, defaultModel) == ModelLabelWithFallback(model, defaultModel)
  {
    assert UpperGpt(model) != "";
  }

  predicate OccursAt(s: string, pat: string, i: nat) {
    i + |pat| <= |s| && s[i..i + |pat|] == pat
  }

  /** The index of the first occurrence of `pat` in `s`, if any. */
  function IndexOf(s: string, pat: string): (r: Option<nat>)
    ensures r.Some? ==> OccursAt(s, pat, r.value)
    ensures r.Some? ==> forall j: nat :: j < r.value ==> !OccursAt(s, pat, j)
    ensures r.None? ==> forall j: nat :: !OccursAt(s, pat, j)
    decreases |s|
  {
    if |s| < |pat| then None
    else if s[..|pat|] == pat then Some(0)
    else
      var rest := IndexOf(s[1..], pat);
      assert !OccursAt(s, pat, 0);
      match rest
      case None =>
        assert forall j: nat :: 0 < j ==> !OccursAt(s, pat, j) by {
          forall j: nat | 0 < j ensures !OccursAt(s, pat, j) { OccursShift(s, pat, j); }
        }
        None
      case Some(k) =>
        OccursShift(s, pat, k + 1);
        assert forall j: nat :: 0 < j < k + 1 ==> !OccursAt(s, pat, j) by {
          forall j: nat | 0 < j < k + 1 ensures !OccursAt(s, pat, j) { OccursShift(s, pat, j); }
        }
        Some(k + 1)
  }

  lemma OccursShift(s: string, pat: string, j: nat)
    requires 0 < j && s != []
    ensures OccursAt(s, pat, j) <==> OccursAt(s[1..], pat, j - 1)
  {
    if j + |pat| <= |s| {
      assert s[j..j + |pat|] == s[1..][j - 1..j - 1 + |pat|];
    }
  }

  /** `s.replace(pat, "")` with a string pattern: only the first occurrence
      is removed. Putting `pat` back at that index restores `s`; without an
      occurrence `s` is returned unchanged. */
  function RemoveFirst(s: string, pat: string): (r: string)
    ensures IndexOf(s, pat).None? ==> r == s
    ensures IndexOf(s, pat).Some? ==>
      var i := IndexOf(s, pat).value;
      |r| == |s| - |pat| && i <= |r| && r[..i] + pat + r[i..] == s
  {
    match IndexOf(s, pat)
    case None => s
    case Some(i) =>
      var r := s[..i] + s[i + |pat|..];
      assert r[..i] == s[..i] && r[i..] == s[i + |pat|..];
      assert s == s[..i] + s[i..i + |pat|] + s[i + |pat|..];
      r
  }

  const LanguagePrefix := "language-"

  /** `codeBlock.className.replace("language-", "")` (src/view.ts:333). */
  function LanguageTag(className: string): (r: string)
    ensures (forall j: nat :: !OccursAt(className, LanguagePrefix, j)) ==> r == className
    ensures IndexOf(className, LanguagePrefix).Some? ==>
      var i := IndexOf(className, LanguagePrefix).value;
      |r| + |LanguagePrefix| == |className| && r[..i] + LanguagePrefix + r[i..] == className
  {
    RemoveFirst(className, LanguagePrefix)
  }

  /** A class name that starts with `language-` yields exactly what follows it. */
  lemma LanguageTagOfPrefixed(lang: string)
    ensures LanguageTag(LanguagePrefix + lang) == lang
  {
    var s := LanguagePrefix + lang;
    assert OccursAt(s, LanguagePrefix, 0);
    assert IndexOf(s, LanguagePrefix) == Some(0);
  }

  /** Only the first `language-` goes: a class name naming it twice keeps
      the second copy. */
  lemma LanguageTagRemovesOnlyFirst(lang: string, tail: string)
    ensures LanguageTag(LanguagePrefix + lang + LanguagePrefix + tail) == lang + LanguagePrefix + tail
  {
    var s := LanguagePrefix + lang + LanguagePrefix + tail;
    assert s == LanguagePrefix + (lang + LanguagePrefix + tail);
    LanguageTagOfPrefixed(lang + LanguagePrefix + tail);
  }
}
