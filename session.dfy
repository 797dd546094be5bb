/**
 * The chat session controller of the chatbot view as a state machine on
 * values: the transcript string sent upstream, the Enter gate, the disabled
 * flag of the text area, the loading indicator and the request in flight.
 * Each handler of src/view.ts is one transition; the answer of the remote
 * completion endpoint is not computed but arrives as an event.
 */
module ChatSession {

  import JsStrings
  import LoadingIndicator

  /** Where the request started by the last accepted submission stands. */
  datatype Flight =
    | Idle          // no request outstanding, the loading timer is cleared
    | Requesting    // the completion request is sent and the loading timer runs
    | Unconfigured  // the missing-key branch ran; its promise has not settled yet

  datatype State = State(
    history: string,     // the module-level `messageHistory` (src/view.ts:8)
    preventEnter: bool,  // the Enter gate (src/view.ts:19)
    disabled: bool,      // `disabled` of the text area (src/view.ts:254)
    apiKey: string,      // `settings.apiKey`; the empty string when missing
    flight: Flight,
    indicator: string,   // the text of the pending reply's loading span
    requests: nat        // completion requests sent so far (src/view.ts:262)
  )

  datatype Event =
    | KeyUp(key: string, shift: bool, value: string)  // `keyup` on the text area
    | Tick                                            // one firing of the loading timer
    | Replied(reply: string)                          // the completion arrived
    | RequestFailed                                   // the request or its parsing threw
    | MissingKeySettled                               // the missing-key branch returned
    | MissingKeyThrew                                 // the missing-key branch threw
    | SetHistory(newHistory: string)                  // `setMessageHistory`
    | SetApiKey(newKey: string)                       // the settings changed the key

  const Enter := "Enter"

  /** The session when the view is opened: the transcript is whatever the
      module-level string holds, the gate is open and nothing is pending. */
  function Opened(history: string, apiKey: string): State {
    State(history, false, false, apiKey, Idle, "", 0)
  }

  /** The condition under which `handleKeyup` submits (src/view.ts:97-102):
      the gate is open, shift is not held, the key is Enter and the text is
      not empty or all white space. */
  predicate Accepts(st: State, key: string, shift: bool, value: string)
    ensures Accepts(st, key, shift, value) <==>
      !st.preventEnter && !shift && key == Enter && !JsStrings.AllWhite(value)
  {
    !st.preventEnter && !shift && key == Enter && JsStrings.Trim(value) != ""
  }

  /** `handleKeyup` (src/view.ts:96-196) together with the part of
      `BMOchatbot` that runs before its first `await`: the trimmed text and a
      line feed are appended to the transcript, the gate is locked, the
      loading span starts at three dots, and either the completion request
      is sent or, with no key, the missing-key branch is entered (it blanks
      the loading span at once, src/view.ts:242-245). */
  function KeyUpStep(st: State, key: string, shift: bool, value: string): (r: State)
    ensures st.history <= r.history
    ensures r.disabled == st.disabled && r.apiKey == st.apiKey
    ensures r.requests == st.requests || (r.requests == st.requests + 1 && r.flight == Requesting)
    ensures Inv(st) ==> Inv(r)
  {
    if !Accepts(st, key, shift, value) then st
    else
      var st' := st.(history := st.history + JsStrings.Trim(value) + "\n", preventEnter := true);
      if st.apiKey == "" then st'.(flight := Unconfigured, indicator := "")
      else st'.(flight := Requesting, indicator := LoadingIndicator.Initial, requests := st.requests + 1)
  }

  /** The transition of one event. A timer firing or a settlement that
      cannot happen in the current state (no timer runs, no promise is
      pending) leaves the state as it is, so that every trace has a meaning. */
  function Apply(st: State, e: Event): (r: State)
    ensures st.disabled ==> r.disabled
    ensures r.apiKey == (if e.SetApiKey? then e.newKey else st.apiKey)
    ensures r.requests == st.requests || (e.KeyUp? && r.requests == st.requests + 1 && r.flight == Requesting)
  {
    match e
    case KeyUp(key, shift, value) => KeyUpStep(st, key, shift, value)
    case Tick =>
      // src/view.ts:151-165: the callback relocks the gate and steps the dots
      if st.flight == Requesting
      then st.(preventEnter := true, indicator := LoadingIndicator.Tick(st.indicator))
      else st
    case Replied(reply) =>
      // src/view.ts:282-296 and 173-177: reply appended, span removed, gate reopened
      if st.flight == Requesting
      then st.(history := st.history + reply + "\n", indicator := "", flight := Idle, preventEnter := false)
      else st
    case RequestFailed =>
      // src/view.ts:370-374 swallows the error, so 173-177 still reopens the gate
      if st.flight == Requesting then st.(flight := Idle, preventEnter := false) else st
    case MissingKeySettled =>
      // src/view.ts:254-255, then 173-177
      if st.flight == Unconfigured then st.(disabled := true, flight := Idle, preventEnter := false) else st
    case MissingKeyThrew =>
      // src/view.ts:178-185: the timer is cleared, the gate is left locked
      if st.flight == Unconfigured then st.(flight := Idle) else st
    case SetHistory(h) => st.(history := h)
    case SetApiKey(k) => st.(apiKey := k)
  }

  function Run(st: State, es: seq<Event>): State
    decreases |es|
  {
    if es == [] then st else Run(Apply(st, es[0]), es[1..])
  }

  /** The invariant every reachable state keeps: while a request is pending
      the gate is locked, and the missing-key branch has blanked the span. */
  predicate Inv(st: State) {
    (st.flight != Idle ==> st.preventEnter) &&
    (st.flight == Unconfigured ==> st.indicator == "")
  }

  lemma OpenedInv(history: string, apiKey: string)
    ensures Inv(Opened(history, apiKey))
  {
  }

  lemma ApplyKeepsInv(st: State, e: Event)
    requires Inv(st)
    ensures Inv(Apply(st, e))
  {
  }

  /** A key-up that does not meet the submission condition changes nothing:
      the transcript, the gate and the request count stay as they were. */
  lemma KeyUpNoOpUnlessAccepted(st: State, key: string, shift: bool, value: string)
    requires !Accepts(st, key, shift, value)
    ensures Apply(st, KeyUp(key, shift, value)) == st
  {
  }

  /** An accepted key-up appends exactly the trimmed text and a line feed,
      locks the gate before any request, and sends one request exactly when
      a key is configured. */
  lemma KeyUpAccepted(st: State, key: string, shift: bool, value: string)
    requires Accepts(st, key, shift, value)
    ensures var st' := Apply(st, KeyUp(key, shift, value));
      st'.history == st.history + JsStrings.Trim(value) + "\n" &&
      st'.preventEnter && st'.flight != Idle && st'.disabled == st.disabled &&
      (st'.requests == st.requests + 1 <==> st.apiKey != "") &&
      (st'.requests == st.requests <==> st.apiKey == "")
  {
  }

  /** Single flight: while a request is pending every key-up is ignored. */
  lemma PendingKeyUpIgnored(st: State, key: string, shift: bool, value: string)
    requires Inv(st) && st.flight != Idle
    ensures Apply(st, KeyUp(key, shift, value)) == st
  {
  }

  lemma {:induction false} RunAppend(st: State, a: seq<Event>, b: seq<Event>)
    ensures Run(st, a + b) == Run(Run(st, a), b)
    decreases |a|
  {
    if a == [] {
      assert a + b == b;
    } else {
      assert (a + b)[0] == a[0];
      assert (a + b)[1..] == a[1..] + b;
      RunAppend(Apply(st, a[0]), a[1..], b);
    }
  }

  lemma {:induction false} RunKeepsInv(st: State, es: seq<Event>)
    requires Inv(st)
    ensures Inv(Run(st, es))
    decreases |es|
  {
    if es != [] {
      ApplyKeepsInv(st, es[0]);
      RunKeepsInv(Apply(st, es[0]), es[1..]);
    }
  }

  predicate ResetsHistory(e: Event) {
    e.SetHistory?
  }

  /** The transcript is append-only: unless `setMessageHistory` replaces it,
      what it held before any sequence of events is a prefix of what it
      holds after. */
  lemma {:induction false} HistoryOnlyGrows(st: State, es: seq<Event>)
    requires forall k :: 0 <= k < |es| ==> !ResetsHistory(es[k])
    ensures st.history <= Run(st, es).history
    decreases |es|
  {
    if es != [] {
      var next := Apply(st, es[0]);
      assert !ResetsHistory(es[0]);
      ApplyExtendsHistory(st, es[0]);
      HistoryOnlyGrows(next, es[1..]);
    }
  }

  /** One event other than `setMessageHistory` appends to the transcript or
      leaves it alone. */
  lemma ApplyExtendsHistory(st: State, e: Event)
    requires !ResetsHistory(e)
    ensures st.history <= Apply(st, e).history
  {
    if e.Replied? && st.flight == Requesting {
      var added := e.reply + "\n";
      assert Apply(st, e).history == st.history + added;
      assert (st.history + added)[..|st.history|] == st.history;
    }
  }

  /** Once disabled, the text area stays disabled: no event enables it. */
  lemma {:induction false} DisabledStaysDisabled(st: State, es: seq<Event>)
    requires st.disabled
    ensures Run(st, es).disabled
    decreases |es|
  {
    if es != [] {
      DisabledStaysDisabled(Apply(st, es[0]), es[1..]);
    }
  }

  predicate ChangesKey(e: Event) {
    e.SetApiKey?
  }

  /** Without a key no request is ever sent, whatever the user types, as
      long as the settings do not supply one. */
  lemma {:induction false} NoKeyNoRequest(st: State, es: seq<Event>)
    requires st.apiKey == ""
    requires forall k :: 0 <= k < |es| ==> !ChangesKey(es[k])
    ensures Run(st, es).requests == st.requests
    ensures Run(st, es).apiKey == ""
    decreases |es|
  {
    if es != [] {
      assert !ChangesKey(es[0]);
      NoKeyNoRequest(Apply(st, es[0]), es[1..]);
    }
  }

  /** After the missing-key branch threw, the gate is locked with nothing
      pending, and then no event ever reopens it or sends a request: the
      session accepts no further submission. */
  lemma {:induction false} LockedForever(st: State, es: seq<Event>)
    requires st.preventEnter && st.flight == Idle
    ensures Run(st, es).preventEnter && Run(st, es).flight == Idle
    ensures Run(st, es).requests == st.requests
    decreases |es|
  {
    if es != [] {
      LockedForever(Apply(st, es[0]), es[1..]);
    }
  }

  /** The missing-key branch throwing is what leads there. */
  lemma ThrowLocks(st: State)
    requires Inv(st) && st.flight == Unconfigured
    ensures var st' := Apply(st, MissingKeyThrew);
      st'.preventEnter && st'.flight == Idle && st'.history == st.history && st'.disabled == st.disabled
  {
  }

  predicate IsSubmissionOrTick(e: Event) {
    e.KeyUp? || e.Tick?
  }

  /** While a request is pending, any number of key-ups (and timer
      firings) add nothing to the transcript and send no request. */
  lemma {:induction false} PendingIgnoresSubmissions(st: State, es: seq<Event>)
    requires Inv(st) && st.flight != Idle
    requires forall k :: 0 <= k < |es| ==> IsSubmissionOrTick(es[k])
    ensures Run(st, es).history == st.history && Run(st, es).requests == st.requests
    ensures Run(st, es).flight == st.flight && Inv(Run(st, es))
    decreases |es|
  {
    if es != [] {
      assert IsSubmissionOrTick(es[0]);
      PendingIgnoresSubmissions(Apply(st, es[0]), es[1..]);
    }
  }

  /** `n` firings of the loading timer. */
  function TickEvents(n: nat): (es: seq<Event>)
    ensures |es| == n && forall k :: 0 <= k < n ==> es[k] == Tick
  {
    seq(n, _ => Tick)
  }

  /** While the request runs, `n` firings step the indicator `n` times and
      touch nothing else. */
  lemma {:induction false} RunTicks(st: State, n: nat)
    requires st.flight == Requesting && st.preventEnter
    ensures Run(st, TickEvents(n)) == st.(indicator := LoadingIndicator.Ticks(st.indicator, n))
  {
    if n == 0 {
      assert TickEvents(0) == [];
    } else {
      assert TickEvents(n) == TickEvents(n - 1) + [Tick];
      RunAppend(st, TickEvents(n - 1), [Tick]);
      RunTicks(st, n - 1);
    }
  }

  /** The state in which a new round can start: nothing pending, gate open. */
  predicate Ready(st: State) {
    st.flight == Idle && !st.preventEnter
  }

  /** A submission with a key followed by `n` timer firings: the text is
      in the transcript, one request is out, the gate is locked, and the
      indicator has cycled from `...`. */
  lemma SubmitAndWait(st: State, value: string, n: nat)
    requires Ready(st) && st.apiKey != "" && JsStrings.Trim(value) != ""
    ensures Run(st, [KeyUp(Enter, false, value)] + TickEvents(n)) ==
      st.(history := st.history + JsStrings.Trim(value) + "\n", preventEnter := true, flight := Requesting,
          requests := st.requests + 1, indicator := LoadingIndicator.Dots(LoadingIndicator.CycleLength(n)))
  {
    var sent := Apply(st, KeyUp(Enter, false, value));
    assert Run(st, [KeyUp(Enter, false, value)]) == sent;
    RunAppend(st, [KeyUp(Enter, false, value)], TickEvents(n));
    RunTicks(sent, n);
    LoadingIndicator.TicksFromInitial(n);
  }

  /** A successful round: Enter on a non-blank text, any number of timer
      firings, then the reply. The transcript grows by exactly the trimmed
      text, a line feed, the reply and a line feed; one request is sent; the
      gate is open again. */
  lemma SuccessfulRound(st: State, value: string, n: nat, reply: string)
    requires Ready(st) && st.apiKey != "" && JsStrings.Trim(value) != ""
    ensures var st' := Run(st, [KeyUp(Enter, false, value)] + TickEvents(n) + [Replied(reply)]);
      st' == st.(history := st.history + JsStrings.Trim(value) + "\n" + reply + "\n",
                 requests := st.requests + 1, indicator := "")
  {
    var submitted := [KeyUp(Enter, false, value)] + TickEvents(n);
    SubmitAndWait(st, value, n);
    var waiting := Run(st, submitted);
    RunAppend(st, submitted, [Replied(reply)]);
    assert Run(waiting, [Replied(reply)]) == Apply(waiting, Replied(reply));
    assert st.history + JsStrings.Trim(value) + "\n" + reply + "\n"
        == (st.history + JsStrings.Trim(value) + "\n") + reply + "\n";
  }

  /** A failed round: the transcript keeps the user's text and gains no
      reply, the indicator stays as the last firing left it, and the gate
      is open again. */
  lemma FailedRound(st: State, value: string, n: nat)
    requires Ready(st) && st.apiKey != "" && JsStrings.Trim(value) != ""
    ensures var st' := Run(st, [KeyUp(Enter, false, value)] + TickEvents(n) + [RequestFailed]);
      st' == st.(history := st.history + JsStrings.Trim(value) + "\n",
                 requests := st.requests + 1,
                 indicator := LoadingIndicator.Dots(LoadingIndicator.CycleLength(n)))
  {
    var submitted := [KeyUp(Enter, false, value)] + TickEvents(n);
    SubmitAndWait(st, value, n);
    var waiting := Run(st, submitted);
    RunAppend(st, submitted, [RequestFailed]);
    assert Run(waiting, [RequestFailed]) == Apply(waiting, RequestFailed);
  }

  /** A round without a key: no request, the user's text is kept, no reply,
      the text area is disabled, and the gate flag is cleared again. */
  lemma MissingKeyRound(st: State, value: string)
    requires Ready(st) && st.apiKey == "" && JsStrings.Trim(value) != ""
    ensures var st' := Run(st, [KeyUp(Enter, false, value), MissingKeySettled]);
      st' == st.(history := st.history + JsStrings.Trim(value) + "\n", disabled := true, indicator := "")
  {
    var sent := Apply(st, KeyUp(Enter, false, value));
    assert [KeyUp(Enter, false, value), MissingKeySettled][1..] == [MissingKeySettled];
    assert Run(sent, [MissingKeySettled]) == Apply(sent, MissingKeySettled);
  }

  /** `handleKeydown` (src/view.ts:199-203): the default line break of a
      key-down is suppressed for Enter without shift. */
  predicate KeyDownSuppressesNewline(key: string, shift: bool) {
    key == Enter && !shift
  }

  /** Every key-up that submits comes from a key whose key-down inserted no
      line break, whether or not the gate was open; shift-Enter always
      inserts one and never submits. */
  lemma SubmittingKeyInsertsNoNewline(st: State, key: string, shift: bool, value: string)
    ensures Accepts(st, key, shift, value) ==> KeyDownSuppressesNewline(key, shift)
    ensures shift ==> !KeyDownSuppressesNewline(key, shift) && !Accepts(st, key, shift, value)
  {
  }
}
