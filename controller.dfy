/** The page's controller as an object: the module-level variables of the
    script and the fields of its `voice` object, updated in place by one method
    per callback. Each method is proved against the step function of
    `TurnTaking` that describes the same callback, so everything proved about
    runs of that state machine holds for the object. */
module Controller {

  import opened TurnTaking
  import opened Optional
  import Text
  import VoiceActivity

  class VoiceChat {
    var state: TurnState
    var interrupted: bool
    var inFlight: bool
    var lastSendAt: int
    var history: seq<Message>
    var voiceEnabled: bool
    var lastFinal: string
    /** `speechSynthesis.speaking`: whether an utterance is playing. */
    var ttsSpeaking: bool
    /** Where the running `sendText` call is suspended. */
    var request: Request

    /** The object's fields as a session value. */
    function Model(): Session
      reads this
    {
      Session(state, interrupted, inFlight, lastSendAt, history, voiceEnabled, lastFinal, ttsSpeaking, request)
    }

    ghost predicate Valid()
      reads this
    {
      TurnTaking.Valid(Model())
    }

    /** The page as loaded: idle, nothing sent, voice off. */
    constructor ()
      ensures Model() == Initial && Valid()
    {
      state := Idle;
      interrupted := false;
      inFlight := false;
      lastSendAt := 0;
      history := [];
      voiceEnabled := false;
      lastFinal := "";
      ttsSpeaking := false;
      request := NoRequest;
    }

    /** `sendText` up to the request; `accepted` tells whether it passed the gate. */
    method SendText(text: string, now: nat) returns (accepted: bool)
      requires Valid()
      modifies this
      ensures accepted == SendAccepted(old(Model()), text, now)
      ensures Model() == TurnTaking.SendText(old(Model()), text, now)
      ensures Valid()
    {
      accepted := false;
      if text == "" {
        return;
      }
      if inFlight || now - lastSendAt < MinSendSpacingMs {
        return;
      }
      inFlight := true;
      lastSendAt := now;
      history := history + [Message(User, text)];
      state := Thinking;
      request := AwaitingReply;
      accepted := true;
    }

    /** The `finally` block of `sendText`. */
    method Finish()
      requires !ttsSpeaking
      modifies this
      ensures Model() == TurnTaking.Finish(old(Model()))
      ensures old(Valid()) ==> Valid()
    {
      inFlight := false;
      request := NoRequest;
      if state == Thinking {
        state := Idle;
      }
    }

    /** The rest of `sendText` once speaking is over or was off. */
    method ContinueAfterSpeech()
      requires !ttsSpeaking
      modifies this
      ensures Model() == AfterSpeech(old(Model()))
    {
      if !interrupted && voiceEnabled {
        state := Waiting;
        request := QuietPeriod;
      } else {
        Finish();
      }
    }

    /** The reply arrived: store the limited reply, then speak it or go on. */
    method OnReply(raw: string, speakOn: bool)
      requires Valid() && request == AwaitingReply
      modifies this
      ensures Model() == ReplySucceeded(old(Model()), raw, speakOn)
      ensures Valid()
    {
      ReplySucceededKeepsValid(Model(), raw, speakOn);
      var reply := Reply(raw);
      Append(Message(Assistant, reply));
      SpeakOrGoOn(reply, speakOn);
    }

    /** `history.push`: appends one message and changes nothing else. */
    method Append(m: Message)
      modifies this
      ensures Model() == old(Model()).(history := old(history) + [m])
    {
      history := history + [m];
    }

    /** After storing the reply: speak it when speaking is on, otherwise go
        straight on. */
    method SpeakOrGoOn(reply: string, speakOn: bool)
      requires !ttsSpeaking
      modifies this
      ensures Model() == TurnTaking.SpeakOrGoOn(old(Model()), reply, speakOn)
    {
      if speakOn && reply != "" {
        interrupted := false;
        request := AwaitingSpeech(false);
      } else {
        ContinueAfterSpeech();
      }
    }

    /** The request failed: nothing is stored, the gate opens. */
    method OnReplyFailed()
      requires Valid() && request == AwaitingReply
      modifies this
      ensures Model() == ReplyFailed(old(Model()))
      ensures Valid()
    {
      Finish();
    }

    /** `onstart` of the utterance. */
    method OnSpeechStart()
      requires Valid() && request == AwaitingSpeech(false)
      modifies this
      ensures Model() == SpeechStarted(old(Model()))
      ensures Valid()
    {
      ttsSpeaking := true;
      state := Speaking;
      request := AwaitingSpeech(true);
    }

    /** `onend` or `onerror` of the utterance; `sendText` resumes. */
    method OnSpeechEnd()
      requires Valid() && request.AwaitingSpeech?
      modifies this
      ensures Model() == SpeechFinished(old(Model()))
      ensures Valid()
    {
      ttsSpeaking := false;
      if !interrupted {
        state := Idle;
      }
      ContinueAfterSpeech();
    }

    /** The quiet period is over: reopen listening unless speech is playing, then
        finish the request. */
    method OnQuietPeriodElapsed(supported: bool)
      requires Valid() && request == QuietPeriod
      modifies this
      ensures Model() == QuietPeriodElapsed(old(Model()), supported)
      ensures Valid()
    {
      if !ttsSpeaking {
        VoiceStart(supported);
      }
      Finish();
    }

    /** `cancelTTS`. */
    method CancelTTS()
      requires Valid()
      modifies this
      ensures Model() == TurnTaking.CancelTTS(old(Model()))
      ensures Valid()
    {
      if ttsSpeaking {
        interrupted := true;
        ttsSpeaking := false;
        state := Interrupted;
      }
    }

    /** `voice.start`. */
    method VoiceStart(supported: bool)
      requires Valid()
      modifies this
      ensures Model() == TurnTaking.VoiceStart(old(Model()), supported)
      ensures Valid()
    {
      if voiceEnabled {
        return;
      }
      if !supported {
        return;
      }
      voiceEnabled := true;
      state := Listening;
    }

    /** `voice.stop`. */
    method VoiceStop()
      requires Valid()
      modifies this
      ensures Model() == TurnTaking.VoiceStop(old(Model()))
      ensures Valid()
    {
      voiceEnabled := false;
      state := Idle;
    }

    /** `rec.onresult`: `send` is the transcript to hand to `sendText` after
        the short delay, if it is kept. */
    method OnFinalResult(transcript: string) returns (send: Option<string>)
      requires Valid()
      modifies this
      ensures send == FreshTranscript(old(Model()), transcript)
      ensures Model() == FinalResult(old(Model()), transcript)
      ensures Valid()
    {
      var text := Text.Trim(transcript);
      if text == "" || text == lastFinal {
        return None;
      }
      lastFinal := text;
      state := Thinking;
      send := Some(text);
    }

    /** `rec.onend`: whether a restart of recognition is scheduled. */
    method OnRecognitionEnd() returns (restart: bool)
      ensures restart == RestartAfterEnd(Model())
      ensures restart <==> voiceEnabled && state == Listening
    {
      restart := voiceEnabled && state == Listening;
    }

    /** One tick of the detector over the buffer the analyser filled:
        cancel speech when the user talks over it. `bargedIn` tells whether the
        restart of recognition is scheduled. */
    method VadTick(data: array<VoiceActivity.Byte>) returns (bargedIn: bool)
      requires Valid()
      modifies this
      ensures var loud := VoiceActivity.IsLoud(VoiceActivity.SquareSum(data[..]), data.Length);
        bargedIn == BargeIn(old(Model()), loud)
        && Model() == TurnTaking.VadTick(old(Model()), loud)
      ensures Valid()
    {
      bargedIn := false;
      if !voiceEnabled {
        return;
      }
      var sum := VoiceActivity.Energy(data);
      if ttsSpeaking && VoiceActivity.IsLoud(sum, data.Length) {
        CancelTTS();
        bargedIn := true;
      }
    }
  }
}
