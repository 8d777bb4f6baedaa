# Voice chat turn-taking controller, modelled in Dafny

The front end of the voice chat (`edge-front-main/api/chat.js`) lets a user talk
or type to an assistant and interrupt ("barge in on") its speech. This project
models the three parts of the script that are sequential logic, and proves
their properties:

- **The word limiter** (`limitWords`, module `Text`). It trims the text, splits
  it on runs of whitespace, and either returns the text unchanged or returns its
  first `n` words joined by single spaces plus `…` (U+2026). The model gives a
  reference notion of "the words of a string" (its maximal runs of
  non-whitespace). It proves that JavaScript's `trim().split(/\s+/)` counts
  exactly those words, and that a truncated reply has exactly `n` words.
- **The voice picker** (`pickVoice`, module `Voices`). It prefers a Microsoft
  "Emily" voice, then a Microsoft neural voice, then a voice whose language
  mentions "english", then the first voice. The model proves that the pick is
  the unique first voice of the best tier present, and returns none only for
  an empty list.
- **The turn-taking controller.** It covers the send gate and request
  completion of `sendText`, the speech callbacks, `cancelTTS`, the voice
  session's `start`/`stop`, the recognizer's `onresult`/`onend`, and the
  detector's barge-in branch.
  - `TurnTaking` is the specification. The page's variables form one
    `Session` value, and every callback is a function on it. Runs of events
    keep the invariants. Accepted sends are at least 1100 ms apart, so at most
    one send is accepted in any window shorter than that.
  - `Controller.VoiceChat` is the page itself, as a class. Its fields are the
    module globals (`state`, `interrupted`, `inFlight`, `lastSendAt`,
    `history`) and `voice.enabled`/`voice.lastFinal`. Each public method is
    one callback updating them in place, and each is proved equal to its step
    function. Three helper methods (`Finish`, `ContinueAfterSpeech`,
    `SpeakOrGoOn`) are the parts of `sendText` those callbacks share. They are
    called only while no speech plays. `Append` is `history.push`.
  - `VoiceActivity` holds the detector's energy loop over the sample buffer
    and an exact integer form of `rms > 0.06`.

`sendText` is one asynchronous call suspended at three points: waiting for the
reply, waiting for the speech to end, and during the 5 s quiet period. The
model records the suspension point in a `request` field. The invariant is that
`inFlight` holds exactly while a request is suspended. A delay in the source
(350, 250, 600 or 5000 ms) is modelled as a later, separate call. The clock
(`Date.now()`) is a `nat` parameter of the send. Whether speech recognition is
supported is a parameter of `voice.start`. Whether synthesis is playing
(`speechSynthesis.speaking`) is the field `ttsSpeaking`.

The model follows the code as written, in particular:

- **Listening is never reopened after a reply while voice is on.** The written
  behaviour is the states Speaking → Idle → Waiting, staying in Waiting. The
  reopen after the quiet period calls `voice.start()`, which returns at once
  because the voice session is still enabled. So the state stays Waiting and
  nothing restarts recognition (`TurnTaking.QuietPeriodDoesNotReopen`).
  - The comments at chat.js:76 and :80 ("Wait 5s before reopening mic",
    "reopen listening") say the wait is meant to end in a reopened
    microphone, that is Speaking → Waiting → Listening.
  - The same call switches a voice session stopped during the quiet period
    back on (`TurnTaking.StopDuringQuietPeriodReenables`).
- **A barge-in leaves the state Interrupted.** The code restarts recognition
  600 ms later without changing the state. The state's own label
  (`'Interrupted → Listening'`, chat.js:20) names a move back to Listening
  that never happens in the code.
- **A kept transcript sets Thinking at once.** When no request is under way
  and the send 350 ms later is refused by the spacing rule, nothing resets it
  (`TurnTaking.RefusedTranscriptStaysThinking`). When the send is refused
  because a request is in flight, that request's completion moves the state
  on.
- **The voice tiers.** The code requires "microsoft" in the name for both
  the Emily and the neural tier. The third tier searches the voice's `lang`
  field for the word "english", not for a configured language. `lang` is
  normally a BCP 47 tag such as "en-US", which `/english/i` does not match, so
  in practice that tier is usually skipped.
- **Stopping the voice session during speech sets Idle while speech plays.**
  `voice.stop` (chat.js:218) sets Idle without cancelling the utterance. So
  "speech playing ⇒ Speaking" does not hold. The converse does hold: Speaking
  implies that speech is playing (`TurnTaking.SpeakingOnlyWhilePlaying`).
  Playback is modelled as caused only by the page's own utterance.
- **`limitWords("", n)` counts one (empty) word, as `"".split(/\s+/)` does.**
  With `n = 0` every input becomes `…`.

## Model

| member | source | states |
|---|---|---|
| Text.LimitWords | edge-front-main/api/chat.js:46-49 | the input itself when it has at most n words (n ≥ 1); otherwise its first n words joined by single spaces followed by the ellipsis; the ellipsis alone when n is 0 |
| Text.LimitWordsTruncated | edge-front-main/api/chat.js:48 | a truncated result has exactly n words: the first n−1 input words and the n-th with the ellipsis attached |
| Text.LimitWordsBound | edge-front-main/api/chat.js:46-49 | for n ≥ 1 the result never has more than n words, by the reference count and by the split count |
| Text.LimitWordsIdempotent | edge-front-main/api/chat.js:46-49 | limiting an already limited text changes nothing |
| Text.WordCount | edge-front-main/api/chat.js:47 | `trim().split(/\s+/).length` is the number of maximal non-whitespace runs, and 1 for a text without any |
| Text.WordCountIsWords | edge-front-main/api/chat.js:47 | the pieces of the trimmed split are exactly the words, or the single empty piece when there are none |
| Text.Trim | edge-front-main/api/chat.js:47 | the result starts and ends with non-whitespace and is the infix of the input outside which there is only whitespace |
| Text.SplitFrom | edge-front-main/api/chat.js:47 | the split yields at least one piece and no piece contains whitespace |
| Text.SplitFromIsWordsFrom | edge-front-main/api/chat.js:47 | from the start of a word of a string that ends in non-whitespace, the split pieces are exactly the words |
| Text.Words | edge-front-main/api/chat.js:47 | every word is non-empty and free of whitespace |
| Text.WordsOfTrim | edge-front-main/api/chat.js:47 | trimming does not change the words |
| Text.WordsOfJoin | edge-front-main/api/chat.js:48 | joining words with single spaces and taking the words again gives back the same sequence |
| Text.JoinAppend | edge-front-main/api/chat.js:48 | appending the ellipsis to a join extends its last word |
| Voices.PickVoice | edge-front-main/api/chat.js:109-115 | none exactly for an empty list; otherwise a voice of the list that has the best tier present and no earlier voice of that tier |
| Voices.FirstBestUnique | edge-front-main/api/chat.js:109-115 | there is only one such voice, so the pick is determined |
| Voices.FindFrom | edge-front-main/api/chat.js:112-114 | `find` returns the first index satisfying the test, or none when no element does |
| Voices.ContainsOccurs | edge-front-main/api/chat.js:112-114 | the substring test holds exactly when the pattern occurs at some position |
| Voices.Lower | edge-front-main/api/chat.js:112-114 | case folding keeps the length and folds every character |
| VoiceActivity.Energy | edge-front-main/api/chat.js:194-197 | the loop sums the squared deviations of all samples from 128 |
| VoiceActivity.IsLoudMeansMeanSquareAbove | edge-front-main/api/chat.js:198-200 | the integer loudness test is the comparison of the mean square of the scaled samples with 0.06² |
| VoiceActivity.SilenceIsQuiet | edge-front-main/api/chat.js:194-200 | a buffer of silent samples has zero energy and never triggers a barge-in |
| TurnTaking.SendText | edge-front-main/api/chat.js:58-66 | an empty text, a request in flight, or less than 1100 ms since the last send leaves everything unchanged; otherwise the gate closes, the time is recorded, one user turn is appended and the state is Thinking |
| TurnTaking.Reply | edge-front-main/api/chat.js:70-71 | the stored reply is never empty and has at most 100 words; an empty reply is replaced by "[no reply]"; a short reply is kept as is, a long one becomes its first 100 words and the ellipsis |
| TurnTaking.NoReplyWords | edge-front-main/api/chat.js:70 | the stand-in "[no reply]" has the two words "[no" and "reply]", well under the limit |
| TurnTaking.ReplySucceeded | edge-front-main/api/chat.js:69-81 | exactly one assistant turn holding the limited reply is appended, then the reply is spoken or the call goes on |
| TurnTaking.SpeakOrGoOn | edge-front-main/api/chat.js:75-77 | with speaking on, the interrupt flag is cleared and the call waits for the speech; otherwise it goes straight on |
| TurnTaking.ReplyFailed | edge-front-main/api/chat.js:82-88 | a failed request appends nothing, opens the gate and drops Thinking to Idle, and changes nothing else: the new session is exactly the `finally` block applied to the old one |
| TurnTaking.Finish | edge-front-main/api/chat.js:85-88 | the gate opens, Thinking becomes Idle, every other state is kept |
| TurnTaking.AfterSpeech | edge-front-main/api/chat.js:77-81 | without an interruption and with voice on, the state is Waiting and the quiet period starts; otherwise the request finishes |
| TurnTaking.Speak | edge-front-main/api/chat.js:120-122 | empty text changes nothing; other text clears the interrupt flag |
| TurnTaking.SpeechStarted | edge-front-main/api/chat.js:126 | fires only for an utterance that has not started yet; afterwards the state is Speaking, speech is playing and the utterance is marked started |
| TurnTaking.StartedStaysStarted | edge-front-main/api/chat.js:122-128 | once the utterance has started, every event other than its end keeps it started, so `onstart` is not expected again |
| TurnTaking.StartedUntilEnd | edge-front-main/api/chat.js:122-128 | along any run without the utterance's end, the utterance stays started and `onstart` is never expected again |
| TurnTaking.SpeechFinished | edge-front-main/api/chat.js:127-128 | when interrupted the state is left as it is and the request finishes; otherwise the state becomes Waiting with voice on and Idle without |
| TurnTaking.CancelTTS | edge-front-main/api/chat.js:135-141 | nothing changes when no speech is playing; otherwise the interrupt flag is set, playback stops and the state is Interrupted |
| TurnTaking.VoiceStart | edge-front-main/api/chat.js:149-155 | nothing changes when the session is already on or recognition is unsupported; otherwise the session is on and the state is Listening |
| TurnTaking.VoiceStop | edge-front-main/api/chat.js:213-218 | the session is off and the state is Idle |
| TurnTaking.QuietPeriodElapsed | edge-front-main/api/chat.js:79-88 | the request finishes; when the session was on, speech is playing or recognition is unsupported the result is exactly the `finally` block; otherwise it is that block with the session switched on and the state Listening |
| TurnTaking.FreshTranscript | edge-front-main/api/chat.js:162-163 | a transcript is kept exactly when it is non-empty after trimming and differs from the last kept one, and the trimmed text is what is kept |
| TurnTaking.FinalResult | edge-front-main/api/chat.js:161-165 | a dropped transcript changes nothing; a kept one is remembered and the state is Thinking |
| TurnTaking.VadTick | edge-front-main/api/chat.js:191-203 | without a barge-in (voice on, speech playing, loud) nothing changes; with one, the speech is cancelled and the state is Interrupted |
| TurnTaking.Step | edge-front-main/api/chat.js:58-218 | every event keeps the invariant, appends at most one message without changing earlier ones, and only an accepted send moves the last-send time |
| TurnTaking.InitialIsValid | edge-front-main/api/chat.js:15-22 | the page as loaded satisfies the invariant |
| TurnTaking.RunKeepsValid | edge-front-main/api/chat.js:58-88 | along every run the gate is closed exactly while one request is under way, speech plays only between the utterance's start and end, and Speaking holds only while it plays uninterrupted |
| TurnTaking.SpeakingOnlyWhilePlaying | edge-front-main/api/chat.js:122-128 | from the loaded page, on every run, Speaking implies playing and not interrupted, and playing implies a request suspended in a started utterance |
| TurnTaking.RunExtendsHistory | edge-front-main/api/chat.js:64-72 | the history only grows, and earlier turns never change |
| TurnTaking.SendSpacing | edge-front-main/api/chat.js:58-62 | the accepted sends of a run are each at least 1100 ms after the previous one, the first at least that long after the last earlier send |
| TurnTaking.SpacedGaps | edge-front-main/api/chat.js:61-62 | the same spacing, stated for every pair of consecutive accepted sends |
| TurnTaking.AtMostOneSendPerWindow | edge-front-main/api/chat.js:61 | of any sends issued within less than 1100 ms, at most one is accepted |
| TurnTaking.CancelIdempotent | edge-front-main/api/chat.js:135-141 | cancelling twice is cancelling once |
| TurnTaking.RepeatedTranscriptIgnored | edge-front-main/api/chat.js:162-164 | the same final transcript a second time changes nothing and is not sent |
| TurnTaking.LongReplyStoredTruncated | edge-front-main/api/chat.js:70-72 | a reply of more than 100 words is stored as its first 100 words with the ellipsis, never in full |
| TurnTaking.SendThenReply | edge-front-main/api/chat.js:58-88 | an accepted send answered with speech and voice off appends one user and one assistant turn and ends Idle with the gate open |
| TurnTaking.QuietPeriodDoesNotReopen | edge-front-main/api/chat.js:77-80 | speech ending normally with voice on leads to Waiting, and the quiet period's end leaves it Waiting with no restart of recognition scheduled |
| TurnTaking.StopDuringQuietPeriodReenables | edge-front-main/api/chat.js:79-80 | stopping the voice session during the quiet period does not last: its end switches the session back on and listens |
| TurnTaking.RefusedTranscriptStaysThinking | edge-front-main/api/chat.js:163-168 | a kept transcript whose send is refused by the spacing rule leaves the state Thinking with no request under way |
| TurnTaking.BargeInInterrupts | edge-front-main/api/chat.js:200-203 | a tick that changes anything happened while speech was playing and the level was loud, and its result is Interrupted |
| Controller.VoiceChat.constructor | edge-front-main/api/chat.js:15-22 | the fields start as the initial session |
| Controller.VoiceChat.SendText | edge-front-main/api/chat.js:58-66 | reports whether the gate accepted the text, and updates the fields as the send step does |
| Controller.VoiceChat.Finish | edge-front-main/api/chat.js:85-88 | updates the fields as the `finally` block does; it needs silent speech and keeps the invariant |
| Controller.VoiceChat.ContinueAfterSpeech | edge-front-main/api/chat.js:77-81 | updates the fields as the rest of `sendText` after speech does: Waiting with the quiet period, or the `finally` block |
| Controller.VoiceChat.SpeakOrGoOn | edge-front-main/api/chat.js:75 | updates the fields as speaking the stored reply or going straight on does |
| Controller.VoiceChat.Append | edge-front-main/api/chat.js:72 | appends one message to the history and changes no other field |
| Controller.VoiceChat.OnReply | edge-front-main/api/chat.js:69-75 | updates the fields as a successful reply does and keeps the invariant |
| Controller.VoiceChat.OnReplyFailed | edge-front-main/api/chat.js:82-88 | updates the fields as a failed request does and keeps the invariant |
| Controller.VoiceChat.OnSpeechStart | edge-front-main/api/chat.js:126 | updates the fields as the start of speech does |
| Controller.VoiceChat.OnSpeechEnd | edge-front-main/api/chat.js:127-128 | updates the fields as the end of speech does, resuming the suspended send |
| Controller.VoiceChat.OnQuietPeriodElapsed | edge-front-main/api/chat.js:79-88 | updates the fields as the end of the quiet period does |
| Controller.VoiceChat.CancelTTS | edge-front-main/api/chat.js:135-141 | updates the fields as cancelling speech does |
| Controller.VoiceChat.VoiceStart | edge-front-main/api/chat.js:149-155 | updates the fields as starting the voice session does |
| Controller.VoiceChat.VoiceStop | edge-front-main/api/chat.js:213-218 | updates the fields as stopping the voice session does |
| Controller.VoiceChat.OnFinalResult | edge-front-main/api/chat.js:161-168 | returns the transcript to send, exactly when it is kept, and updates the fields as the result step does |
| Controller.VoiceChat.OnRecognitionEnd | edge-front-main/api/chat.js:170-175 | a restart is scheduled exactly when the session is on and the state is Listening |
| Controller.VoiceChat.VadTick | edge-front-main/api/chat.js:191-203 | computes the buffer's energy, reports a barge-in exactly when the session is on, speech is playing and the buffer is loud, and updates the fields as the tick step does |

## Left out

- The page and its widgets: `badge`, the texts `setState` shows, `push`, the buttons, the keyboard and focus handlers and the greeting. `setState` is plain assignment of the state.
- The network call (`postJSON`, `fetch`, JSON). A request ends in one of two events: a reply string (an absent `reply` field is the empty string) or a failure.
- The speech APIs, `AudioContext`, `getUserMedia`, `requestAnimationFrame` and `setTimeout`. Playback is the `ttsSpeaking` field; a recognizer restart is the boolean a method returns; each delay is a later call.
- The exception paths inside `speak` and around `rec.start()`, which only swallow platform errors.
- The voice chosen for an utterance and the speech rate, which do not influence the state.
- The asynchronous interleaving itself: each callback is one atomic step, and a run may order them in any way the suspension points allow.
- Playback: `ttsSpeaking` becomes true only at the utterance's `onstart` and false at its end or at a cancel, following `speechSynthesis.speaking`. A `cancelTTS` between `speak()` and `onstart` therefore does nothing in the model. The invariant `ttsSpeaking ==> request == AwaitingSpeech(true)` and `TurnTaking.SpeakingOnlyWhilePlaying` rely on this.
- The restart of recognition after a barge-in and after `onend`: these only call the platform, and the model states when they are scheduled.
- TurnTaking.VadTick: takes the loudness as a boolean. Controller.VoiceChat.VadTick computes it from the buffer in exact integer arithmetic rather than with the floating-point square root of the source.
- Text.IsSpace: covers the characters JavaScript's `\s` and `trim` treat as whitespace, not the regular-expression engine.
- Voices.Lower: folds ASCII letters only, which is all the patterns `emily`, `microsoft`, `neural` and `english` need.
- Text.LimitWordsBound: holds for n ≥ 1 only, because with n = 0 the result is the one word `…`.
- TurnTaking.Step: states that each event preserves the invariant; it does not state where a run ends, which the step functions do one call at a time.
