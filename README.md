# Chat session controller of the BMO chatbot view

This project models the chat session controller of the BMO chatbot plugin's
side view (`src/view.ts`) in Dafny. The view is an Obsidian panel. A text area
submits the user's text on Enter. The text goes into one transcript string that
is sent to a remote completion endpoint, and the reply is rendered below.

The model covers the logic in that file that is not user-interface plumbing:

- **The session state** (`ChatSession`, `ChatView`): the transcript
  `messageHistory`, the `preventEnter` gate, and the text area's `disabled`
  flag. It also covers the configured key, the loading indicator's text, and
  whether a request is outstanding.
  - `ChatSession` gives each handler as a transition on a `State` value
    (`Apply`) and proves properties over any sequence of events (`Run`).
  - `ChatView.BmoView` is a class with those fields. Its handlers update the
    fields in place, and each handler is proved to perform exactly the
    `Apply` transition of its event.
  - The remote answer is an event: a reply, a failure, or the settling of
    the missing-key branch, which either returns or throws.
- **The loading indicator** (`LoadingIndicator`): the dot animation's step
  function and its 3, 1, 2, 3, … cycle.
- **Paragraph separators** (`ParagraphBreaks`): the pass that puts a `<br>`
  between adjacent paragraphs of a rendered reply. It is an in-place loop over
  the block's children, proved against a specification function. That function
  is characterised independently: nothing original is lost or reordered, every
  inserted break stands between two paragraphs, and no two paragraphs touch.
- **String helpers** (`JsStrings`): ECMAScript `trim`, the per-line rebuild of
  the user's text, the upper-casing of `g`, `p` and `t` in the model label,
  and the removal of the first `language-` from a code block's class name.

Timing is modelled as follows:

- The missing-key branch of `BMOchatbot` has no `await`. So the branch is
  entered in the same step as the key-up, and it settles before any timer can
  fire.
- A request sent with a key is outstanding until the reply or the failure
  arrives. The loading timer fires only in between.
- A failed request is caught inside `BMOchatbot`. So the `then` callback runs
  and reopens the gate.
- Only an exception that escapes the missing-key branch reaches the outer
  `catch`. That clears the timer but leaves `preventEnter` set, and no later
  event clears it (`ChatSession.LockedForever`). This holds although the
  message shown there says "Please try again".

## Model

| member | source | states |
|---|---|---|
| JsStrings.Trim | src/view.ts:99 | the trimmed text is no longer than the input and neither starts nor ends with white space |
| JsStrings.TrimIsSlice | src/view.ts:99 | the trimmed text is one contiguous slice of the input, and only white space was cut on either side |
| JsStrings.TrimEmptyIff | src/view.ts:99-102 | the trimmed input is empty exactly when the input is empty or all white space |
| JsStrings.TrimIdempotent | src/view.ts:99 | trimming an already trimmed text changes nothing |
| JsStrings.SplitLines | src/view.ts:120 | `split("\n")` yields at least one piece and no piece contains a line feed |
| JsStrings.SplitThenJoin | src/view.ts:120 | joining the pieces of `split("\n")` with line feeds gives the input back |
| JsStrings.RebuildIsJoin | src/view.ts:120-123 | mapping each line to itself plus a line feed (an empty line to a lone line feed) and concatenating is the line-feed join plus one trailing line feed |
| JsStrings.RebuildLine | src/view.ts:121-122 | both arms give the line followed by one line feed, so an empty line and a non-empty one are treated alike |
| JsStrings.Rebuild | src/view.ts:120-123 | the rebuild has at least one character per line and, for a non-empty list of lines, ends in a line feed |
| JsStrings.SanitizedInput | src/view.ts:120-123 | the per-line rebuild of the user's text is exactly the text followed by one line feed |
| JsStrings.UpperGpt | src/view.ts:53 | each `g`, `p`, `t` becomes its capital, every other character and the length are unchanged, and no lower-case `g`, `p`, `t` remains |
| JsStrings.UpperGptIdempotent | src/view.ts:53 | upper-casing the label twice is the same as once |
| JsStrings.ModelLabel | src/view.ts:53 | the label as written is always "Model: " followed by the upper-cased configured model, character by character, so the fallback after the logical or is never taken |
| JsStrings.ModelLabelIgnoresDefault | src/view.ts:53 | with no model configured, the label as written is the bare prefix whatever the default model is |
| JsStrings.ModelLabelWithFallback | src/view.ts:53 | the label with the fallback on the model name: the configured model when there is one, otherwise the default model |
| JsStrings.LabelsAgree | src/view.ts:53 | whenever a model is configured, the corrected label equals the label as written, so the two differ only for an empty model name |
| JsStrings.IndexOf | src/view.ts:333 | the index found is an occurrence with no earlier one, and when none is found there is no occurrence at all |
| JsStrings.RemoveFirst | src/view.ts:333 | a string-pattern `replace` removes only the first occurrence: putting the pattern back at that index restores the input, and without an occurrence the input is returned unchanged |
| JsStrings.LanguageTag | src/view.ts:333 | a class name without `language-` is returned unchanged; otherwise the nine characters of its first `language-` are removed, and putting them back at that index restores the class name |
| JsStrings.LanguageTagOfPrefixed | src/view.ts:333 | a class name `language-X` yields the tag `X` |
| JsStrings.LanguageTagRemovesOnlyFirst | src/view.ts:333 | a second `language-` in the class name survives the replacement |
| LoadingIndicator.Tick | src/view.ts:160-164 | one firing leaves 1 to 3 characters: the text plus a dot, or a single dot |
| LoadingIndicator.Ticks | src/view.ts:151-164 | after n firings the last n characters of the span are dots and, once it has fired, it holds one to three characters, so three firings leave only dots whatever the span held |
| LoadingIndicator.TicksFromInitial | src/view.ts:146-164 | starting from `...`, after n firings the indicator is a run of dots of length 3, 1, 2, 3, … (n mod 3, with 3 for 0) |
| LoadingIndicator.TicksPeriodic | src/view.ts:146-164 | the animation repeats every three firings |
| ParagraphBreaks.InsertBreaks | src/view.ts:307-321 | the in-place pass over the block's children yields exactly the separated sequence |
| ParagraphBreaks.Separated | src/view.ts:307-321 | the children after the pass; dropping the inserted breaks gives back the original children in their order, so nothing is removed or reordered |
| ParagraphBreaks.SeparatedBreaksExactlyBetweenParagraphs | src/view.ts:307-321 | every inserted break stands between two paragraphs and no two paragraphs remain adjacent, so each adjacent pair gets exactly one break |
| ParagraphBreaks.SeparatedLength | src/view.ts:307-321 | the pass adds one node per pair of adjacent paragraphs |
| ChatSession.Accepts | src/view.ts:97-102 | a key-up submits exactly when the gate is open, shift is not held, the key is Enter and the text is not all white space |
| ChatSession.KeyUpStep | src/view.ts:96-172 | a key-up only ever extends the transcript, never changes the disabled flag or the key, sends at most one request and only into a running request, and keeps the invariant |
| ChatSession.Apply | src/view.ts:151-185 | every transition (the timer and the settlement callbacks here, together with the key-up at 96-172, the settlements inside `BMOchatbot` at 233-374 and `setMessageHistory` at 10-12): the text area is never re-enabled, only the settings change the key, and a request is counted only by a key-up that starts one |
| ChatSession.KeyUpNoOpUnlessAccepted | src/view.ts:97-102 | a key-up that does not submit changes nothing: no transcript change, no lock, no request |
| ChatSession.KeyUpAccepted | src/view.ts:99-172 | a submission appends exactly the trimmed text and a line feed and locks the gate; it sends one request when a key is configured and none otherwise |
| ChatSession.PendingKeyUpIgnored | src/view.ts:97-169 | while a request is pending, every key-up is ignored |
| ChatSession.ApplyKeepsInv | src/view.ts:169-185 | every transition keeps the invariant that a pending request implies a locked gate |
| ChatSession.RunKeepsInv | src/view.ts:169-185 | the invariant holds after any sequence of events |
| ChatSession.OpenedInv | src/view.ts:19 | the opened view satisfies the invariant |
| ChatSession.HistoryOnlyGrows | src/view.ts:104-283 | unless `setMessageHistory` replaces it, the transcript before any sequence of events is a prefix of the transcript after it |
| ChatSession.DisabledStaysDisabled | src/view.ts:254 | once the text area is disabled, no sequence of events enables it again |
| ChatSession.NoKeyNoRequest | src/view.ts:233-256 | without a key, no sequence of events sends a request unless the settings supply a key |
| ChatSession.MissingKeyRound | src/view.ts:233-255 | a submission without a key keeps the user's text, adds no reply, sends nothing and disables the text area |
| ChatSession.ThrowLocks | src/view.ts:178-185 | when the missing-key branch throws, the gate stays locked with nothing pending and the transcript unchanged |
| ChatSession.LockedForever | src/view.ts:178-185 | from a locked gate with nothing pending, no sequence of events unlocks it or sends a request |
| ChatSession.PendingIgnoresSubmissions | src/view.ts:97-169 | while a request is pending, any number of key-ups and timer firings add no transcript text and no request |
| ChatSession.SubmitAndWait | src/view.ts:96-172 | a submission with a key and n firings leave the text in the transcript, one request out, the gate locked and the indicator at the cycle length for n |
| ChatSession.RunTicks | src/view.ts:151-168 | while the request runs, n timer firings step the indicator n times and change nothing else |
| ChatSession.SuccessfulRound | src/view.ts:172-177 | a submission, any number of firings and then a reply extend the transcript by exactly the trimmed text, a line feed, the reply and a line feed; one request is sent, the gate reopens and the indicator is blank (the cycling while waiting is stated by `ChatSession.SubmitAndWait`) |
| ChatSession.FailedRound | src/view.ts:370-374 | a failed request keeps the user's text, adds no reply and reopens the gate |
| ChatSession.KeyDownSuppressesNewline | src/view.ts:199-203 | the default line break of a key-down is suppressed exactly for Enter without shift |
| ChatSession.SubmittingKeyInsertsNoNewline | src/view.ts:199-203 | every submitting key-up comes from Enter without shift, whose key-down suppressed the line break; shift-Enter never submits |
| ChatView.BmoView.constructor | src/view.ts:35-86 | the opened view: gate open, text area enabled, nothing pending |
| ChatView.BmoView.HandleKeyup | src/view.ts:96-196 | performs exactly the key-up transition; it changes nothing unless the submission is accepted, and otherwise it states the new transcript, gate, pending request and request count |
| ChatView.BmoView.TickLoading | src/view.ts:151-165 | relocks the gate and steps the indicator by one tick |
| ChatView.BmoView.CompleteSuccess | src/view.ts:282-296 | appends the reply and a line feed, blanks the indicator, reopens the gate and leaves everything else unchanged |
| ChatView.BmoView.CompleteFailure | src/view.ts:370-374 | clears the pending request and reopens the gate; the transcript is unchanged |
| ChatView.BmoView.CompleteMissingKey | src/view.ts:233-255 | disables the text area, clears the pending request and clears the gate flag |
| ChatView.BmoView.OuterCatch | src/view.ts:178-185 | clears the pending request and leaves the gate locked |
| ChatView.BmoView.SetMessageHistory | src/view.ts:10-12 | replaces the transcript and changes nothing else |
| ChatView.BmoView.SetKey | src/view.ts:233 | changes only the key the next submission will see |

## Findings

| source | as written | input that shows it | evidently intended | confidence | as-written member | corrected member |
|---|---|---|---|---|---|---|
| src/view.ts:53 | the logical or binds after the concatenation with "Model: ", so its left operand is never empty and the default model is never used | `model == ""`: the label is `Model: ` with nothing after it | fall back to the default model's name when none is configured, as line 46 does for the chatbot name | medium, not executed | JsStrings.ModelLabelIgnoresDefault | JsStrings.ModelLabelWithFallback |

## Left out

- DOM construction and lookup are not modelled. This covers `createEl`, `querySelector`, `getElementById`, `scrollIntoView`, the user and bot message bubbles, the error paragraphs and the "ERROR" heading. The `#messageContainer` lookup at line 130-131 is taken to succeed, because `onOpen` creates that element.
- The `#loading` span is found by identifier in document order. After a failed request, its span is not removed, so the next request's timer animates the old span. The model keeps one indicator text for the pending reply.
- The completion request is not modelled: `requestUrl`, its JSON body, the bearer header and the parsing of `choices[0].message.content`. A reply or a failure arrives as an event instead. A failure that is raised before line 283 (the request, the JSON parse, a missing `choices[0]`) is `RequestFailed`. A late failure is covered by `Replied`: when the reply content is null or undefined, line 283 appends "null" or "undefined" and a line feed, the span is removed at lines 292-296, and `marked` throws at line 301 into the catch at lines 370-374. The `then` at lines 173-177 then reopens the gate. The resulting state is the one `Replied` gives with that stringified content, so such a failure is a `Replied` event whose reply is "null" or "undefined".
- `ChatSession.Apply`: a timer firing or a settlement in a state where it cannot occur leaves the state unchanged. This keeps traces total. The class methods instead require the state in which the host delivers them.
- Markdown rendering (`marked`), Prism loading and highlighting, `setIcon`, the copy buttons, the clipboard and `Notice` are not modelled. They are foreign libraries and host APIs. So an unknown language tag making `Prism.highlight` throw is not modelled either.
- `ParagraphBreaks` models one sibling list. The source's `querySelectorAll("p")` also visits paragraphs nested in lists and quotes, and each such list is handled the same way. Text nodes between elements are not modelled; they play no part in the `nextElementSibling` test.
- Timers and asynchrony are not modelled: `setInterval`, `setTimeout` and promise scheduling. Each handler and each settlement is one atomic transition. The `setTimeout` that clears the text area's value and height after a submission is not modelled, so the text area's value is a parameter of the key-up.
- The height handling in `handleInput` and `handleBlur` is not modelled, because it depends on layout (`scrollHeight`).
- `cleanup` is not modelled: it is listener bookkeeping, and it removes nothing because `bind` makes new functions.
- The settings values `max_tokens`, `temperature` and `system_role`, and their parsing, are not modelled. `settings.apiKey` is modelled as a string, where empty means missing.
- `messageHistory` is module-level (src/view.ts:8), so every open view shares it, and `setMessageHistory` writes it from outside the view. The model keeps one transcript per `BmoView`; a write by another view or another caller appears only as a `SetHistory` event, and interleavings with other views are not modelled.
- A disabled text area receives no key events in a browser. The model's key-up handler, like the source's, does not check `disabled` itself.
- Strings are sequences of characters. JavaScript's UTF-16 code units and surrogate pairs are not modelled.
