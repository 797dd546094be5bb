/**
 * The chatbot view as an object whose handlers update its fields in place.
 * The fields are the state of the session controller; each handler is
 * proved to perform exactly the transition `ChatSession.Apply` gives for
 * its event, so the lemmas proved there (append-only transcript, single
 * flight, the permanently disabled text area, the locked gate after the
 * missing-key branch throws) hold of every sequence of handler calls.
 */
module ChatView {

  import JsStrings
  import LoadingIndicator
  import opened ChatSession

  class BmoView {
    /** `messageHistory`, module-level in the source (src/view.ts:8). */
    var history: string
    /** `preventEnter` (src/view.ts:19). */
    var preventEnter: bool
    /** `disabled` of the text area (src/view.ts:254). */
    var disabled: bool
    /** `settings.apiKey`, the empty string when not configured. */
    var apiKey: string
    var flight: Flight
    /** The text of the pending reply's loading span. */
    var indicator: string
    /** Completion requests sent so far. */
    var requests: nat

    function Snapshot(): State
      reads this
    {
      State(history, preventEnter, disabled, apiKey, flight, indicator, requests)
    }

    predicate Valid()
      reads this
    {
      Inv(Snapshot())
    }

    /** `onOpen` (src/view.ts:35-86): the gate is open, the text area is
        enabled, nothing is pending; the transcript is what the module-level
        string already holds. */
    constructor (initialHistory: string, key: string)
      ensures Valid() && Snapshot() == Opened(initialHistory, key)
    {
      history := initialHistory;
      preventEnter := false;
      disabled := false;
      apiKey := key;
      flight := Idle;
      indicator := "";
      requests := 0;
    }

    /** `handleKeyup` (src/view.ts:96-196) and the synchronous start of
        `BMOchatbot` (src/view.ts:232-262). */
    method HandleKeyup(key: string, shift: bool, value: string)
      requires Valid()
      modifies this
      ensures Valid()
      ensures Snapshot() == KeyUpStep(old(Snapshot()), key, shift, value)
      ensures !old(Accepts(Snapshot(), key, shift, value)) ==> Snapshot() == old(Snapshot())
      ensures old(Accepts(Snapshot(), key, shift, value)) ==>
        history == old(history) + JsStrings.Trim(value) + "\n" && preventEnter &&
        disabled == old(disabled) && apiKey == old(apiKey) &&
        (if apiKey == ""
         then flight == Unconfigured && indicator == "" && requests == old(requests)
         else flight == Requesting && indicator == LoadingIndicator.Initial && requests == old(requests) + 1)
    {
      ghost var before := Snapshot();
      if !preventEnter && !shift && key == Enter {
        var input := JsStrings.Trim(value);
        if |input| == 0 {
          KeyUpNoOpUnlessAccepted(before, key, shift, value);
          return;
        }
        history := history + input + "\n";
        preventEnter := true;
        if apiKey == "" {
          flight := Unconfigured;
          indicator := "";
        } else {
          requests := requests + 1;
          flight := Requesting;
          indicator := LoadingIndicator.Initial;
        }
        assert Snapshot() == KeyUpStep(before, key, shift, value);
      } else {
        KeyUpNoOpUnlessAccepted(before, key, shift, value);
      }
    }

    /** One firing of `updateLoadingAnimation` (src/view.ts:151-165); the
        timer runs only while the request is out. */
    method TickLoading()
      requires Valid() && flight == Requesting
      modifies this`preventEnter, this`indicator
      ensures Valid()
      ensures Snapshot() == Apply(old(Snapshot()), Tick)
      ensures preventEnter && indicator == LoadingIndicator.Tick(old(indicator))
    {
      preventEnter := true;
      var grown := indicator + ".";
      if |grown| > LoadingIndicator.MaxDots {
        indicator := ".";
      } else {
        indicator := grown;
      }
    }

    /** The reply arrived (src/view.ts:282-296), then the `then` callback
        (src/view.ts:173-177) clears the timer and reopens the gate. */
    method CompleteSuccess(reply: string)
      requires Valid() && flight == Requesting
      modifies this
      ensures Valid()
      ensures Snapshot() == Apply(old(Snapshot()), Replied(reply))
      ensures history == old(history) + reply + "\n"
      ensures !preventEnter && flight == Idle && indicator == ""
      ensures disabled == old(disabled) && apiKey == old(apiKey) && requests == old(requests)
    {
      history := history + reply + "\n";
      indicator := "";
      flight := Idle;
      preventEnter := false;
    }

    /** The request or the parsing of its answer threw; `BMOchatbot` catches
        it (src/view.ts:370-374), so the `then` callback still reopens the
        gate. The transcript keeps the user's text and gains nothing. */
    method CompleteFailure()
      requires Valid() && flight == Requesting
      modifies this`flight, this`preventEnter
      ensures Valid()
      ensures Snapshot() == Apply(old(Snapshot()), RequestFailed)
      ensures !preventEnter && flight == Idle
    {
      flight := Idle;
      preventEnter := false;
    }

    /** The missing-key branch disables the text area and returns
        (src/view.ts:233-255); the `then` callback reopens the gate flag. */
    method CompleteMissingKey()
      requires Valid() && flight == Unconfigured
      modifies this`disabled, this`flight, this`preventEnter
      ensures Valid()
      ensures Snapshot() == Apply(old(Snapshot()), MissingKeySettled)
      ensures disabled && !preventEnter && flight == Idle
    {
      disabled := true;
      flight := Idle;
      preventEnter := false;
    }

    /** The missing-key branch threw before disabling the text area; the
        `catch` callback (src/view.ts:178-185) clears the timer but leaves the
        gate locked. */
    method OuterCatch()
      requires Valid() && flight == Unconfigured
      modifies this`flight
      ensures Valid()
      ensures Snapshot() == Apply(old(Snapshot()), MissingKeyThrew)
      ensures preventEnter && flight == Idle
    {
      flight := Idle;
    }

    /** `setMessageHistory` (src/view.ts:10-12). */
    method SetMessageHistory(newHistory: string)
      requires Valid()
      modifies this`history
      ensures Valid()
      ensures Snapshot() == Apply(old(Snapshot()), SetHistory(newHistory))
      ensures history == newHistory
    {
      history := newHistory;
    }

    /** The settings object is shared with the settings tab, which may
        change the key at any time. */
    method SetKey(newKey: string)
      requires Valid()
      modifies this`apiKey
      ensures Valid()
      ensures Snapshot() == Apply(old(Snapshot()), SetApiKey(newKey))
      ensures apiKey == newKey
    {
      apiKey := newKey;
    }
  }
}
