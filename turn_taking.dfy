/** The turn-taking controller of the voice chat front end as a pure state
    machine. A `Session` holds the module-level variables of the page (the turn
    state, the interrupt flag, the request gate, the conversation history, the
    voice session's `enabled` and `lastFinal`), the speech engine's "speaking"
    flag, and the point at which the one running `sendText` call is suspended.
    Every browser callback is one function from the old session to the new one;
    a delay of the source separates one such call from a later one. */
module TurnTaking {

  import Text
  import opened Optional

  /** Minimum spacing between two accepted sends, in milliseconds. */
  const MinSendSpacingMs: int := 1100
  /** Word limit applied to every reply. */
  const ReplyWordLimit: nat := 100
  /** Stand-in for a reply that is missing or empty. */
  const NoReply: string := "[no reply]"

  datatype TurnState = Idle | Listening | Thinking | Speaking | Waiting | Interrupted

  datatype Role = User | Assistant

  datatype Message = Message(role: Role, content: string)

  /** Where the `sendText` call that passed the gate is suspended: waiting for
      the reply, waiting for its utterance to end (`started` once its `onstart`
      has fired), or in the quiet period before listening is reopened. */
  datatype Request = NoRequest | AwaitingReply | AwaitingSpeech(started: bool) | QuietPeriod

  datatype Session = Session(
    state: TurnState,
    interrupted: bool,
    inFlight: bool,
    lastSendAt: int,
    history: seq<Message>,
    voiceEnabled: bool,
    lastFinal: string,
    ttsSpeaking: bool,
    request: Request)

  /** The page as loaded. */
  const Initial: Session := Session(Idle, false, false, 0, [], false, "", false, NoRequest)

  function Last(h: seq<Message>): Message
    requires h != []
  {
    h[|h| - 1]
  }

  /** The gate is closed exactly while a request is under way, and the history
      ends with the message the suspended call appended last. Speech plays only
      while the page's utterance has started and not ended, the state is
      Speaking only while it plays and nobody has interrupted it, and an
      utterance that has not started yet has not been interrupted. */
  predicate Valid(s: Session) {
    (s.inFlight <==> s.request != NoRequest)
    && (s.request == AwaitingReply ==> s.history != [] && Last(s.history).role == User)
    && (s.request.AwaitingSpeech? || s.request == QuietPeriod ==>
          s.history != [] && Last(s.history).role == Assistant)
    && (s.ttsSpeaking ==> s.request == AwaitingSpeech(true))
    && (s.state == Speaking ==> s.ttsSpeaking && !s.interrupted)
    && (s.request == AwaitingSpeech(false) ==> !s.interrupted)
  }

  // ---- Send gate and request completion -----------------------------------------

  /** The gate of `sendText`: a non-empty text, no request in flight, and at
      least the minimum spacing since the last accepted send. */
  predicate SendAccepted(s: Session, text: string, now: nat) {
    text != "" && !s.inFlight && now - s.lastSendAt >= MinSendSpacingMs
  }

  /** `sendText` up to the request: a rejected send changes nothing; an
      accepted one closes the gate, stamps the time, appends the user turn and
      starts thinking. */
  function SendText(s: Session, text: string, now: nat): (r: Session)
    ensures text == "" || s.inFlight || now - s.lastSendAt < MinSendSpacingMs ==> r == s
    ensures SendAccepted(s, text, now) ==>
      r == s.(inFlight := true, lastSendAt := now, history := s.history + [Message(User, text)],
              state := Thinking, request := AwaitingReply)
  {
    if text == "" then s
    else if s.inFlight || now - s.lastSendAt < MinSendSpacingMs then s
    else
      s.(inFlight := true, lastSendAt := now, state := Thinking, request := AwaitingReply,
         history := s.history + [Message(User, text)])
  }

  /** The stored and spoken reply: the word-limited reply, or the stand-in when
      there is none. */
  function Reply(raw: string): (reply: string)
    ensures reply != ""
    ensures raw == "" ==> reply == NoReply
    ensures |Text.Words(reply)| <= ReplyWordLimit
    ensures raw != "" && |Text.Words(raw)| <= ReplyWordLimit ==> reply == raw
    ensures |Text.Words(raw)| > ReplyWordLimit ==>
      reply == Text.Join(Text.Words(raw)[..ReplyWordLimit], " ") + [Text.Ellipsis]
  {
    var text := if raw == "" then NoReply else raw;
    NoReplyWords();
    Text.LimitWordsBound(text, ReplyWordLimit);
    Text.LimitWords(text, ReplyWordLimit)
  }

  /** The stand-in reply has two words, so the limiter keeps it. */
  lemma NoReplyWords()
    ensures Text.Words(NoReply) == ["[no", "reply]"]
  {
    var ws := ["[no", "reply]"];
    assert Text.IsWord(ws[0]) && Text.IsWord(ws[1]);
    assert Text.Join(ws, " ") == NoReply;
    Text.WordsOfJoin(ws);
  }

  /** The `finally` block of `sendText`: open the gate, and drop back to Idle
      if the state is still Thinking. */
  function Finish(s: Session): (r: Session)
    ensures !r.inFlight && r.request == NoRequest
    ensures r.state == (if s.state == Thinking then Idle else s.state)
    ensures r == s.(inFlight := false, request := NoRequest, state := r.state)
  {
    s.(inFlight := false, request := NoRequest, state := if s.state == Thinking then Idle else s.state)
  }

  /** What `sendText` does once speaking is over (or was off): enter the quiet
      period when not interrupted and the voice session is on, otherwise finish. */
  function AfterSpeech(s: Session): (r: Session)
    ensures !s.interrupted && s.voiceEnabled ==> r == s.(state := Waiting, request := QuietPeriod)
    ensures s.interrupted || !s.voiceEnabled ==> r == Finish(s)
  {
    if !s.interrupted && s.voiceEnabled then s.(state := Waiting, request := QuietPeriod)
    else Finish(s)
  }

  /** The synchronous part of `speak`: empty text changes nothing, any other
      text first clears the interrupt flag. */
  function Speak(s: Session, text: string): (r: Session)
    ensures text == "" ==> r == s
    ensures text != "" ==> r == s.(interrupted := false)
  {
    if text == "" then s else s.(interrupted := false)
  }

  /** A successful reply: exactly one assistant turn holding the limited reply
      is appended; it is then spoken, or the call goes straight on. */
  function ReplySucceeded(s: Session, raw: string, speakOn: bool): (r: Session)
    requires s.request == AwaitingReply
    ensures r.history == s.history + [Message(Assistant, Reply(raw))]
    ensures speakOn ==> r == s.(history := r.history, interrupted := false, request := AwaitingSpeech(false))
    ensures !speakOn ==> r == AfterSpeech(s.(history := r.history))
  {
    var reply := Reply(raw);
    SpeakOrGoOn(s.(history := s.history + [Message(Assistant, reply)]), reply, speakOn)
  }

  lemma ReplySucceededKeepsValid(s: Session, raw: string, speakOn: bool)
    requires Valid(s) && s.request == AwaitingReply
    ensures Valid(ReplySucceeded(s, raw, speakOn))
  {
    var r := ReplySucceeded(s, raw, speakOn);
    assert Last(r.history).role == Assistant;
  }

  /** The stored reply is spoken when speaking is on (and it is not empty),
      otherwise the call goes straight on. */
  function SpeakOrGoOn(s: Session, reply: string, speakOn: bool): (r: Session)
    ensures speakOn && reply != "" ==> r == s.(interrupted := false, request := AwaitingSpeech(false))
    ensures !(speakOn && reply != "") ==> r == AfterSpeech(s)
  {
    if speakOn && reply != "" then Speak(s, reply).(request := AwaitingSpeech(false))
    else AfterSpeech(s)
  }

  /** A failed request appends nothing and finishes. */
  function ReplyFailed(s: Session): (r: Session)
    requires s.request == AwaitingReply
    ensures r == Finish(s)
    ensures r.history == s.history && !r.inFlight && r.request == NoRequest
    ensures r.state == (if s.state == Thinking then Idle else s.state)
  {
    Finish(s)
  }

  // ---- Speech output --------------------------------------------------------------

  /** `onstart` of the utterance, which fires once, before it has ended. */
  function SpeechStarted(s: Session): (r: Session)
    requires s.request == AwaitingSpeech(false)
    ensures r == s.(state := Speaking, ttsSpeaking := true, request := AwaitingSpeech(true))
  {
    s.(state := Speaking, ttsSpeaking := true, request := AwaitingSpeech(true))
  }

  /** `onend` or `onerror` of the utterance: Idle unless interrupted, then the
      suspended `sendText` resumes. */
  function SpeechFinished(s: Session): (r: Session)
    requires s.request.AwaitingSpeech?
    ensures r == AfterSpeech(s.(state := if s.interrupted then s.state else Idle, ttsSpeaking := false))
    ensures s.interrupted ==> r.state == (if s.state == Thinking then Idle else s.state) && r.request == NoRequest
    ensures !s.interrupted ==> r.state == (if s.voiceEnabled then Waiting else Idle)
  {
    var s1 := s.(ttsSpeaking := false);
    var s2 := if !s1.interrupted then s1.(state := Idle) else s1;
    AfterSpeech(s2)
  }

  /** `cancelTTS`: nothing unless speech is playing; otherwise raise the
      interrupt flag, stop playback and show Interrupted. */
  function CancelTTS(s: Session): (r: Session)
    ensures !s.ttsSpeaking ==> r == s
    ensures s.ttsSpeaking ==> r == s.(interrupted := true, ttsSpeaking := false, state := Interrupted)
  {
    if s.ttsSpeaking then s.(interrupted := true, ttsSpeaking := false, state := Interrupted) else s
  }

  // ---- Voice session ----------------------------------------------------------

  /** `voice.start`: a no-op when already enabled or when speech recognition is
      unsupported; otherwise enable the session and listen. */
  function VoiceStart(s: Session, supported: bool): (r: Session)
    ensures s.voiceEnabled || !supported ==> r == s
    ensures !s.voiceEnabled && supported ==> r == s.(voiceEnabled := true, state := Listening)
  {
    if s.voiceEnabled then s
    else if !supported then s
    else s.(voiceEnabled := true, state := Listening)
  }

  /** `voice.stop`. */
  function VoiceStop(s: Session): (r: Session)
    ensures r == s.(voiceEnabled := false, state := Idle)
  {
    s.(voiceEnabled := false, state := Idle)
  }

  /** The end of the quiet period: reopen listening unless speech is playing,
      then finish. The reopen is `voice.start`, so it does nothing while the
      voice session is on. */
  function QuietPeriodElapsed(s: Session, supported: bool): (r: Session)
    requires s.request == QuietPeriod
    ensures !r.inFlight && r.request == NoRequest && r.history == s.history
    ensures s.voiceEnabled || s.ttsSpeaking || !supported ==> r == Finish(s)
    ensures !s.voiceEnabled && !s.ttsSpeaking && supported ==>
      r == Finish(s).(voiceEnabled := true, state := Listening)
  {
    var s1 := if !s.ttsSpeaking then VoiceStart(s, supported) else s;
    Finish(s1)
  }

  /** The text of a final recognition result that is kept: trimmed, non-empty
      and different from the last one kept. */
  function FreshTranscript(s: Session, transcript: string): (t: Option<string>)
    ensures t.Some? <==> Text.Trim(transcript) != "" && Text.Trim(transcript) != s.lastFinal
    ensures t.Some? ==> t.value == Text.Trim(transcript)
  {
    var text := Text.Trim(transcript);
    if text == "" || text == s.lastFinal then None else Some(text)
  }

  /** `rec.onresult`: a kept transcript is remembered and the state becomes
      Thinking at once; the transcript goes to `sendText` 350 ms later. */
  function FinalResult(s: Session, transcript: string): (r: Session)
    ensures FreshTranscript(s, transcript).None? ==> r == s
    ensures FreshTranscript(s, transcript).Some? ==>
      r == s.(lastFinal := Text.Trim(transcript), state := Thinking)
  {
    match FreshTranscript(s, transcript)
    case None => s
    case Some(text) => s.(lastFinal := text, state := Thinking)
  }

  /** `rec.onend` schedules a restart of recognition exactly when the session
      is on and the state is Listening. */
  predicate RestartAfterEnd(s: Session) {
    s.voiceEnabled && s.state == Listening
  }

  /** The barge-in branch of the detector's tick: speech is playing and the
      microphone is loud (while the session is on: the tick stops otherwise). */
  predicate BargeIn(s: Session, loud: bool) {
    s.voiceEnabled && s.ttsSpeaking && loud
  }

  /** One tick of the detector: cancel speech on a barge-in, nothing otherwise. */
  function VadTick(s: Session, loud: bool): (r: Session)
    ensures !BargeIn(s, loud) ==> r == s
    ensures BargeIn(s, loud) ==> r.state == Interrupted && r.interrupted && !r.ttsSpeaking
    ensures BargeIn(s, loud) ==> r == CancelTTS(s)
  {
    if !s.voiceEnabled then s
    else if s.ttsSpeaking && loud then CancelTTS(s)
    else s
  }

  // ---- Events and runs ----------------------------------------------------------------

  datatype Event =
    | Send(text: string, now: nat)
    | ReplyOk(raw: string, speakOn: bool)
    | ReplyErr
    | SpeechStart
    | SpeechEnd
    | QuietElapsed(supported: bool)
    | Cancel
    | FinalTranscript(transcript: string)
    | RecognitionEnd
    | StartVoice(supported: bool)
    | StopVoice
    | Tick(loud: bool)

  /** The continuations of a request arrive only where it is suspended; every
      other event can happen at any time. */
  predicate Enabled(s: Session, e: Event) {
    match e
    case ReplyOk(_, _) => s.request == AwaitingReply
    case ReplyErr => s.request == AwaitingReply
    case SpeechStart => s.request == AwaitingSpeech(false)
    case SpeechEnd => s.request.AwaitingSpeech?
    case QuietElapsed(_) => s.request == QuietPeriod
    case _ => true
  }

  /** One event. Every event keeps the invariant, appends at most one message
      to the history and changes nothing before it, and only an accepted send
      moves the time of the last send. */
  function Step(s: Session, e: Event): (r: Session)
    requires Enabled(s, e)
    ensures Valid(s) ==> Valid(r)
    ensures |s.history| <= |r.history| <= |s.history| + 1 && r.history[..|s.history|] == s.history
    ensures r.lastSendAt == (if e.Send? && SendAccepted(s, e.text, e.now) then e.now else s.lastSendAt)
  {
    match e
    case Send(text, now) => SendText(s, text, now)
    case ReplyOk(raw, speakOn) => ReplySucceeded(s, raw, speakOn)
    case ReplyErr => ReplyFailed(s)
    case SpeechStart => SpeechStarted(s)
    case SpeechEnd => SpeechFinished(s)
    case QuietElapsed(supported) => QuietPeriodElapsed(s, supported)
    case Cancel => CancelTTS(s)
    case FinalTranscript(transcript) => FinalResult(s, transcript)
    case RecognitionEnd => s
    case StartVoice(supported) => VoiceStart(s, supported)
    case StopVoice => VoiceStop(s)
    case Tick(loud) => VadTick(s, loud)
  }

  predicate IsTrace(s: Session, es: seq<Event>)
    decreases |es|
  {
    es == [] || (Enabled(s, es[0]) && IsTrace(Step(s, es[0]), es[1..]))
  }

  function Run(s: Session, es: seq<Event>): Session
    requires IsTrace(s, es)
    decreases |es|
  {
    if es == [] then s else Run(Step(s, es[0]), es[1..])
  }

  /** The times of the sends the gate accepts along a run. */
  function AcceptedSendTimes(s: Session, es: seq<Event>): seq<int>
    requires IsTrace(s, es)
    decreases |es|
  {
    if es == [] then []
    else
      var e := es[0];
      (if e.Send? && SendAccepted(s, e.text, e.now) then [e.now as int] else [])
      + AcceptedSendTimes(Step(s, e), es[1..])
  }

  // ---- Lemmas -------------------------------------------------------------------------

  lemma InitialIsValid()
    ensures Valid(Initial)
  {
  }

  /** Every run keeps the invariant: at most one request is ever under way. */
  lemma {:induction false} RunKeepsValid(s: Session, es: seq<Event>)
    requires Valid(s) && IsTrace(s, es)
    ensures Valid(Run(s, es))
    decreases |es|
  {
    if es != [] {
      RunKeepsValid(Step(s, es[0]), es[1..]);
    }
  }

  /** From the loaded page, on every run: the state is Speaking only while the
      page's utterance plays and has not been interrupted, and speech plays only
      after that utterance's `onstart` and before its end. */
  lemma SpeakingOnlyWhilePlaying(es: seq<Event>)
    requires IsTrace(Initial, es)
    ensures var r := Run(Initial, es);
      (r.state == Speaking ==> r.ttsSpeaking && !r.interrupted)
      && (r.ttsSpeaking ==> r.inFlight && r.request == AwaitingSpeech(true))
  {
    InitialIsValid();
    RunKeepsValid(Initial, es);
  }

  /** Once the utterance has started, every event except its end keeps it
      started, so `onstart` is not expected again. */
  lemma StartedStaysStarted(s: Session, e: Event)
    requires Valid(s) && s.request == AwaitingSpeech(true) && Enabled(s, e) && !e.SpeechEnd?
    ensures Step(s, e).request == AwaitingSpeech(true)
    ensures !Enabled(Step(s, e), SpeechStart)
  {
  }

  /** `onstart` fires once per utterance: along any run that does not contain
      the utterance's end, the utterance stays started and `onstart` is never
      expected again. */
  lemma {:induction false} StartedUntilEnd(s: Session, es: seq<Event>)
    requires Valid(s) && s.request == AwaitingSpeech(true) && IsTrace(s, es)
    requires forall i :: 0 <= i < |es| ==> !es[i].SpeechEnd?
    ensures Run(s, es).request == AwaitingSpeech(true)
    ensures !Enabled(Run(s, es), SpeechStart)
    decreases |es|
  {
    if es != [] {
      StartedStaysStarted(s, es[0]);
      assert forall i :: 0 <= i < |es[1..]| ==> es[1..][i] == es[i + 1];
      StartedUntilEnd(Step(s, es[0]), es[1..]);
    }
  }

  /** The history is append-only. */
  lemma {:induction false} RunExtendsHistory(s: Session, es: seq<Event>)
    requires IsTrace(s, es)
    ensures |s.history| <= |Run(s, es).history|
    ensures Run(s, es).history[..|s.history|] == s.history
    decreases |es|
  {
    if es != [] {
      var s1 := Step(s, es[0]);
      RunExtendsHistory(s1, es[1..]);
      assert Run(s, es).history[..|s1.history|][..|s.history|] == Run(s, es).history[..|s.history|];
    }
  }

  /** Each time in t is at least the minimum spacing after the one before it,
      the first at least that far after `last`. */
  predicate Spaced(last: int, t: seq<int>)
    decreases |t|
  {
    t == [] || (t[0] - last >= MinSendSpacingMs && Spaced(t[0], t[1..]))
  }

  /** Accepted sends are at least the minimum spacing apart, and the first one
      at least that far from the last send before the run. */
  lemma {:induction false} SendSpacing(s: Session, es: seq<Event>)
    requires IsTrace(s, es)
    ensures Spaced(s.lastSendAt, AcceptedSendTimes(s, es))
    decreases |es|
  {
    if es != [] {
      var e := es[0];
      var s1 := Step(s, e);
      SendSpacing(s1, es[1..]);
      var t := AcceptedSendTimes(s, es);
      var t' := AcceptedSendTimes(s1, es[1..]);
      if e.Send? && SendAccepted(s, e.text, e.now) {
        assert t == [e.now as int] + t';
        assert t[0] == s1.lastSendAt && t[1..] == t';
      } else {
        assert t == t' && s1.lastSendAt == s.lastSendAt;
      }
    }
  }

  /** Spaced, stated index by index. */
  lemma {:induction false} SpacedGaps(last: int, t: seq<int>)
    requires Spaced(last, t)
    ensures t != [] ==> t[0] - last >= MinSendSpacingMs
    ensures forall i :: 0 <= i < |t| - 1 ==> t[i + 1] - t[i] >= MinSendSpacingMs
    decreases |t|
  {
    if t != [] {
      SpacedGaps(t[0], t[1..]);
      assert forall i :: 1 <= i < |t| - 1 ==> t[i] == t[1..][i - 1] && t[i + 1] == t[1..][i];
    }
  }

  /** All sends of the run happen in [lo, hi). */
  predicate SendsWithin(es: seq<Event>, lo: int, hi: int) {
    forall i :: 0 <= i < |es| && es[i].Send? ==> lo <= es[i].now < hi
  }

  lemma {:induction false} AcceptedWithin(s: Session, es: seq<Event>, lo: int, hi: int)
    requires IsTrace(s, es) && SendsWithin(es, lo, hi)
    ensures forall i :: 0 <= i < |AcceptedSendTimes(s, es)| ==> lo <= AcceptedSendTimes(s, es)[i] < hi
    decreases |es|
  {
    if es != [] {
      assert SendsWithin(es[1..], lo, hi) by {
        assert forall i :: 0 <= i < |es| - 1 ==> es[1..][i] == es[i + 1];
      }
      AcceptedWithin(Step(s, es[0]), es[1..], lo, hi);
    }
  }

  /** The last of two or more spaced times is at least the minimum spacing
      after the first. */
  lemma {:induction false} SpacedSpan(last: int, t: seq<int>)
    requires Spaced(last, t) && t != []
    ensures t[|t| - 1] >= t[0]
    ensures |t| >= 2 ==> t[|t| - 1] - t[0] >= MinSendSpacingMs
    decreases |t|
  {
    if |t| >= 2 {
      var u := t[1..];
      SpacedSpan(t[0], u);
      assert u[0] == t[1] && u[|u| - 1] == t[|t| - 1];
    }
  }

  /** However many sends are issued within less than the minimum spacing, at
      most one of them is accepted. */
  lemma AtMostOneSendPerWindow(s: Session, es: seq<Event>, lo: int)
    requires IsTrace(s, es) && SendsWithin(es, lo, lo + MinSendSpacingMs)
    ensures |AcceptedSendTimes(s, es)| <= 1
  {
    var t := AcceptedSendTimes(s, es);
    SendSpacing(s, es);
    AcceptedWithin(s, es, lo, lo + MinSendSpacingMs);
    if t != [] {
      SpacedSpan(s.lastSendAt, t);
      assert lo <= t[0] && t[|t| - 1] < lo + MinSendSpacingMs;
    }
  }

  /** Cancelling speech twice is cancelling it once. */
  lemma CancelIdempotent(s: Session)
    ensures CancelTTS(CancelTTS(s)) == CancelTTS(s)
  {
  }

  /** Repeating a final transcript changes nothing and sends nothing. */
  lemma RepeatedTranscriptIgnored(s: Session, transcript: string)
    ensures FinalResult(FinalResult(s, transcript), transcript) == FinalResult(s, transcript)
    ensures FreshTranscript(FinalResult(s, transcript), transcript).None?
  {
  }

  /** A reply with too many words is stored as its first hundred words and an
      ellipsis, never in full. */
  lemma LongReplyStoredTruncated(s: Session, raw: string, speakOn: bool)
    requires s.request == AwaitingReply && |Text.Words(raw)| > ReplyWordLimit
    ensures var r := ReplySucceeded(s, raw, speakOn);
      Last(r.history) == Message(Assistant, Text.Join(Text.Words(raw)[..ReplyWordLimit], " ") + [Text.Ellipsis])
      && |Text.Words(Last(r.history).content)| == ReplyWordLimit
      && Last(r.history).content != raw
  {
    Text.LimitWordsTruncated(raw, ReplyWordLimit);
  }

  /** A whole accepted request with speech off and the voice session off: one
      user turn and one assistant turn are appended, and the controller ends
      idle with the gate open. */
  lemma SendThenReply(s: Session, text: string, now: nat, raw: string)
    requires SendAccepted(s, text, now) && !s.voiceEnabled
    ensures SendText(s, text, now).request == AwaitingReply
    ensures var r := ReplySucceeded(SendText(s, text, now), raw, false);
      r.history == s.history + [Message(User, text), Message(Assistant, Reply(raw))]
      && r.state == Idle && !r.inFlight && r.request == NoRequest
  {
    var s1 := SendText(s, text, now);
    assert s1.history == s.history + [Message(User, text)];
    var s2 := ReplySucceeded(s1, raw, false);
    assert s2.history == s1.history + [Message(Assistant, Reply(raw))];
  }

  /** Speech that ends normally with the voice session on leads to Waiting, and
      the end of the quiet period leaves it there: the reopen calls
      `voice.start` while the session is enabled. */
  lemma QuietPeriodDoesNotReopen(s: Session, supported: bool)
    requires s.request.AwaitingSpeech? && !s.interrupted && s.voiceEnabled
    ensures var s1 := SpeechFinished(s);
      s1.state == Waiting && s1.request == QuietPeriod
      && QuietPeriodElapsed(s1, supported).state == Waiting
      && QuietPeriodElapsed(s1, supported).request == NoRequest
      && !RestartAfterEnd(QuietPeriodElapsed(s1, supported))
  {
  }

  /** The reopen is `voice.start`, so a voice session stopped during the quiet
      period is switched back on when it ends (speech silent, recognition
      supported). */
  lemma StopDuringQuietPeriodReenables(s: Session)
    requires s.request == QuietPeriod && !s.ttsSpeaking
    ensures var r := QuietPeriodElapsed(VoiceStop(s), true);
      r.voiceEnabled && r.state == Listening && !r.inFlight
  {
  }

  /** A transcript kept by the recognizer sets Thinking at once; when the send
      that follows is refused by the spacing rule, the state stays Thinking
      with no request under way. */
  lemma RefusedTranscriptStaysThinking(s: Session, transcript: string, now: nat)
    requires s.request == NoRequest
    requires FreshTranscript(s, transcript).Some?
    requires now - s.lastSendAt < MinSendSpacingMs
    ensures var r := SendText(FinalResult(s, transcript), Text.Trim(transcript), now);
      r.state == Thinking && r.request == NoRequest
  {
  }

  /** A barge-in always ends in Interrupted, never in Idle or Waiting, and only
      happens while speech is playing. */
  lemma BargeInInterrupts(s: Session, loud: bool)
    ensures VadTick(s, loud) != s ==> s.ttsSpeaking && loud && VadTick(s, loud).state == Interrupted
  {
  }
}
