/**
 * One streaming session of the paired comparison (nb-flux-bench.ts): callbacks of the
 * socket and of three timers, in any order, around a latch that settles once.
 */
module FluxSession {
  import opened Wrappers
  import opened Texts

  const STEP_BYTES: nat := 80 * 8
  const SILENCE_BYTES: nat := 1500 * 8
  const BYTES_PER_MS: real := 8.0

  datatype Model = Nova3 | Flux

  datatype Message =
    | Ignored                                       // binary, not JSON, or of another type
    | ProviderError(credit: bool)                   // whether the code reads as a credit refusal
    | EndOfTurn(text: Option<string>)               // TurnInfo, Flux only
    | Results(text: Option<string>, isFinal: bool, speechFinal: bool)
    | UtteranceEnd

  datatype Event =
    | Deadline                                      // the 15 s timer
    | SocketError
    | UnexpectedResponse(code: nat)
    | Opened
    | Chunk(now: int, ok: bool)                     // one turn of the sending loop; whether the send throws
    | AudioSent(ok: bool)                           // the loop is over: the control message
    | CloseControl(ok: bool)                        // the 1.5 s timer after Finalize
    | EndControl                                    // the 5 s timer after the control message
    | Received(message: Message, now: int)
    | Closed

  datatype Outcome = Outcome(transcript: string, error: Option<string>, latencyMs: Option<real>,
                             finalTrigger: Option<string>, messagesSent: nat, audioSentMs: real)

  datatype Sender = Waiting | Sending(offset: nat) | Over

  /** The variables the callbacks share. */
  datatype State = State(
    settled: Option<Outcome>, finalParts: seq<string>, speechEndAt: Option<real>, turnEndAt: Option<int>,
    finalTrigger: Option<string>, finalizeSent: bool, closeArmed: bool, endArmed: bool,
    messagesSent: nat, sentBytes: nat, sender: Sender)

  const INITIAL := State(None, [], None, None, None, false, false, false, 0, 0, Waiting)

  function PayloadLength(audioLength: nat): nat { audioLength + SILENCE_BYTES }

  function Latency(s: State): Option<real> {
    if s.turnEndAt.Some? && s.speechEndAt.Some? then Some(s.turnEndAt.value as real - s.speechEndAt.value) else None
  }

  function Finish(s: State, error: Option<string>): State {
    if s.settled.Some? then s
    else s.(settled := Some(Outcome(Transcript(s.finalParts), error, Latency(s), s.finalTrigger, s.messagesSent,
                                    s.sentBytes as real / BYTES_PER_MS)),
            closeArmed := false, endArmed := false)
  }

  function ResponseError(code: nat): string { if code == 402 then "account_limit" else "http_" + Figures(code) }

  function OnMessage(model: Model, s: State, m: Message, now: int): State {
    match m
    case Ignored => s
    case ProviderError(credit) => Finish(s, Some(if credit then "account_limit" else "provider_error"))
    case EndOfTurn(t) =>
      if model.Nova3? then s
      else
        var text := Text(t);
        Finish(s.(finalParts := if text == "" then s.finalParts else s.finalParts + [text], turnEndAt := Some(now),
                  finalTrigger := if s.finalTrigger.Some? then s.finalTrigger else Some("end_of_turn")),
               if text == "" then Some("empty_final") else None)
    case Results(t, isFinal, speechFinal) =>
      if model.Flux? then s
      else
        var text := Text(t);
        var p := if isFinal && text != "" then s.(finalParts := s.finalParts + [text]) else s;
        if isFinal && text != "" && s.finalizeSent then Finish(p.(turnEndAt := Some(now)), None)
        else if isFinal && speechFinal then
          Finish(p.(turnEndAt := Some(now), finalTrigger := Some("speech_final")),
                 if p.finalParts == [] then Some("empty_final") else None)
        else p
    case UtteranceEnd =>
      if model.Flux? || s.finalParts == [] then s
      else Finish(s.(turnEndAt := Some(now), finalTrigger := Some("utterance_end")), None)
  }

  function OnChunk(audioLength: nat, s: State, offset: nat, now: int, ok: bool): State
    requires offset < PayloadLength(audioLength)
  {
    if !ok then Finish(s.(sender := Over), Some("audio_send_error"))
    else
      var length := Min(STEP_BYTES, PayloadLength(audioLength) - offset);
      s.(messagesSent := s.messagesSent + 1, sentBytes := s.sentBytes + length, sender := Sending(offset + STEP_BYTES),
         speechEndAt := if offset < audioLength <= offset + length
                        then Some(now as real + (audioLength - offset) as real / BYTES_PER_MS) else s.speechEndAt)
  }

  /** After the loop: ask the provider to end the turn, and arm the control timers. */
  function OnAudioSent(model: Model, s: State, ok: bool): State {
    if s.settled.Some? then s.(sender := Over)
    else if !ok then Finish(s.(sender := Over), Some("control_send_error"))
    else if model.Flux? then s.(sender := Over, finalTrigger := Some("force_end_turn"), endArmed := true)
    else s.(sender := Over, finalTrigger := Some("finalize"), finalizeSent := true, closeArmed := true,
      endArmed := true)
  }

  function Step(model: Model, audioLength: nat, s: State, e: Event): State {
    match e
    case Deadline => Finish(s, Some("timeout"))
    case SocketError => Finish(s, Some("websocket_error"))
    case UnexpectedResponse(code) => Finish(s, Some(ResponseError(code)))
    case Opened => if s.sender.Waiting? then s.(sender := Sending(0)) else s
    case Chunk(now, ok) =>
      if s.sender.Sending? && s.sender.offset < PayloadLength(audioLength) && s.settled.None?
      then OnChunk(audioLength, s, s.sender.offset, now, ok) else s
    case AudioSent(ok) =>
      if s.sender.Sending? && (s.sender.offset >= PayloadLength(audioLength) || s.settled.Some?)
      then OnAudioSent(model, s, ok) else s
    case CloseControl(ok) =>
      if s.closeArmed && s.settled.None? && !ok
      then Finish(s, if s.finalParts == [] then Some("missing_final") else None) else s.(closeArmed := false)
    case EndControl =>
      if s.endArmed && s.settled.None?
      then Finish(s, Some(if s.finalParts == [] then "missing_final" else "missing_end_of_turn"))
      else s.(endArmed := false)
    case Received(m, now) => OnMessage(model, s, m, now)
    case Closed =>
      Finish(s, Some(if s.finalParts == [] then "closed_without_final" else "closed_without_end_of_turn"))
  }

  function Run(model: Model, audioLength: nat, s: State, events: seq<Event>): State {
    if events == [] then s
    else Step(model, audioLength, Run(model, audioLength, s, events[..|events|-1]), events[|events|-1])
  }

  function Session(model: Model, audioLength: nat, events: seq<Event>): State {
    Run(model, audioLength, INITIAL, events)
  }

  // ----- the callbacks

  class Stream {
    const model: Model
    const audioLength: nat
    var settled: Option<Outcome>
    var finalParts: seq<string>
    var speechEndAt: Option<real>
    var turnEndAt: Option<int>
    var finalTrigger: Option<string>
    var finalizeSent: bool
    var closeArmed: bool
    var endArmed: bool
    var messagesSent: nat
    var sentBytes: nat
    var sender: Sender

    function View(): State
      reads this
    {
      State(settled, finalParts, speechEndAt, turnEndAt, finalTrigger, finalizeSent, closeArmed, endArmed,
            messagesSent, sentBytes, sender)
    }

    constructor (model: Model, audioLength: nat)
      ensures View() == INITIAL && this.model == model && this.audioLength == audioLength
    {
      this.model, this.audioLength := model, audioLength;
      settled, finalParts, speechEndAt, turnEndAt, finalTrigger := None, [], None, None, None;
      finalizeSent, closeArmed, endArmed, messagesSent, sentBytes, sender := false, false, false, 0, 0, Waiting;
    }

    method FinishWith(error: Option<string>)
      modifies this
      ensures View() == Finish(old(View()), error)
    {
      if settled.Some? { return; }
      closeArmed, endArmed := false, false;
      var latency := if turnEndAt.Some? && speechEndAt.Some? then
                       Some(turnEndAt.value as real - speechEndAt.value) else None;
      settled := Some(Outcome(Trim(Collapse(JoinSpaces(finalParts))), error, latency, finalTrigger, messagesSent,
                              sentBytes as real / BYTES_PER_MS));
    }

    method SendChunk(now: int, ok: bool)
      modifies this
      ensures View() == Step(model, audioLength, old(View()), Chunk(now, ok))
    {
      if !sender.Sending? || sender.offset >= PayloadLength(audioLength) || settled.Some? { return; }
      var offset := sender.offset;
      if !ok {
        sender := Over;
        FinishWith(Some("audio_send_error"));
        return;
      }
      var length := Min(STEP_BYTES, PayloadLength(audioLength) - offset);
      messagesSent := messagesSent + 1;
      sentBytes := sentBytes + length;
      if offset < audioLength && offset + length >= audioLength {
        speechEndAt := Some(now as real + (audioLength - offset) as real / BYTES_PER_MS);
      }
      sender := Sending(offset + STEP_BYTES);
    }

    method EndAudio(ok: bool)
      modifies this
      ensures View() == Step(model, audioLength, old(View()), AudioSent(ok))
    {
      if !sender.Sending? || (sender.offset < PayloadLength(audioLength) && settled.None?) { return; }
      sender := Over;
      if settled.Some? { return; }
      if !ok {
        FinishWith(Some("control_send_error"));
        return;
      }
      if model.Flux? {
        finalTrigger := Some("force_end_turn");
      } else {
        finalizeSent, finalTrigger, closeArmed := true, Some("finalize"), true;
      }
      endArmed := true;
    }

    method Receive(message: Message, now: int)
      modifies this
      ensures View() == Step(model, audioLength, old(View()), Received(message, now))
    {
      hide Finish, Text;
      match message
      case Ignored =>
      case ProviderError(credit) =>
        FinishWith(Some(if credit then "account_limit" else "provider_error"));
      case EndOfTurn(t) =>
        if model.Flux? {
          var text := Text(t);
          if text != "" { finalParts := finalParts + [text]; }
          turnEndAt := Some(now);
          if finalTrigger.None? { finalTrigger := Some("end_of_turn"); }
          FinishWith(if text != "" then None else Some("empty_final"));
        }
      case Results(t, isFinal, speechFinal) =>
        if model.Flux? { return; }
        var text := Text(t);
        if isFinal && text != "" {
          finalParts := finalParts + [text];
          if finalizeSent {
            turnEndAt := Some(now);
            FinishWith(None);
            return;
          }
        }
        if isFinal && speechFinal {
          turnEndAt, finalTrigger := Some(now), Some("speech_final");
          FinishWith(if finalParts != [] then None else Some("empty_final"));
        }
      case UtteranceEnd =>
        if model.Nova3? && finalParts != [] {
          turnEndAt, finalTrigger := Some(now), Some("utterance_end");
          FinishWith(None);
        }
    }

    /** The remaining callbacks: socket events and timers. */
    method Fire(e: Event)
      requires !e.Chunk? && !e.AudioSent? && !e.Received?
      modifies this
      ensures View() == Step(model, audioLength, old(View()), e)
    {
      match e
      case Deadline => FinishWith(Some("timeout"));
      case SocketError => FinishWith(Some("websocket_error"));
      case UnexpectedResponse(code) => FinishWith(Some(ResponseError(code)));
      case Opened => if sender.Waiting? { sender := Sending(0); }
      case CloseControl(ok) =>
        if closeArmed && settled.None? && !ok {
          FinishWith(if finalParts != [] then None else Some("missing_final"));
        } else {
          closeArmed := false;
        }
      case EndControl =>
        if endArmed && settled.None? {
          FinishWith(Some(if finalParts != [] then "missing_end_of_turn" else "missing_final"));
        } else {
          endArmed := false;
        }
      case Closed =>
        if settled.None? {
          FinishWith(Some(if finalParts != [] then "closed_without_end_of_turn" else "closed_without_final"));
        }
    }
  }

  // ----- one settlement

  lemma {:induction false} StepKeepsOutcome(model: Model, audioLength: nat, s: State, e: Event)
    requires s.settled.Some?
    ensures Step(model, audioLength, s, e).settled == s.settled
  {
    hide Text;
  }

  /** Once settled, a session keeps its outcome through any later events. */
  lemma {:induction false} SettlesOnce(model: Model, audioLength: nat, events: seq<Event>, more: seq<Event>)
    requires Session(model, audioLength, events).settled.Some?
    ensures Session(model, audioLength, events + more).settled == Session(model, audioLength, events).settled
  {
    if more == [] {
      assert events + more == events;
    } else {
      var all := events + more;
      assert all[..|all|-1] == events + more[..|more|-1];
      SettlesOnce(model, audioLength, events, more[..|more|-1]);
      StepKeepsOutcome(model, audioLength, Session(model, audioLength, all[..|all|-1]), all[|all|-1]);
    }
  }

  /** The deadline, an error or the end of the socket: any of them leaves the session settled. */
  lemma {:induction false} AlwaysSettles(model: Model, audioLength: nat, events: seq<Event>, i: nat)
    requires i < |events|
    requires events[i].Deadline? || events[i].SocketError? || events[i].UnexpectedResponse? || events[i].Closed?
    ensures Session(model, audioLength, events).settled.Some?
  {
    var upTo := events[..i+1];
    assert upTo[..i] == events[..i] && upTo + events[i+1..] == events;
    SettlesOnce(model, audioLength, upTo, events[i+1..]);
  }

  // ----- what an outcome means

  /** Bytes sent after `n` chunks. */
  function BytesAfter(audioLength: nat, n: nat): nat { Min(n * STEP_BYTES, PayloadLength(audioLength)) }

  ghost predicate Audio(audioLength: nat, s: State) {
    && s.sentBytes == BytesAfter(audioLength, s.messagesSent)
    && (s.sender.Waiting? ==> s.messagesSent == 0)
    && (s.sender.Sending? ==> s.sender.offset == s.messagesSent * STEP_BYTES)
    && (s.speechEndAt.Some? <==> 0 < audioLength <= s.sentBytes)
  }

  ghost predicate Parts(model: Model, s: State) {
    && (forall p :: p in s.finalParts ==> Words(p) != [])
    && (model.Flux? && s.settled.None? ==> s.finalParts == [] && s.turnEndAt.None?)
    && (s.finalizeSent ==> s.finalTrigger.Some?) && (s.closeArmed ==> s.finalizeSent)
  }

  /** The outcome agrees with what was sent and heard before it. */
  ghost predicate Sound(audioLength: nat, o: Outcome) {
    && (o.error.None? ==> o.transcript != "" && o.finalTrigger.Some?)
    && o.audioSentMs == BytesAfter(audioLength, o.messagesSent) as real / BYTES_PER_MS
    && (o.latencyMs.Some? ==> 0 < audioLength <= BytesAfter(audioLength, o.messagesSent))
  }

  ghost predicate Inv(model: Model, audioLength: nat, s: State) {
    Audio(audioLength, s) && Parts(model, s) && (s.settled.Some? ==> Sound(audioLength, s.settled.value))
  }

  lemma {:induction false} FinishIsSound(audioLength: nat, s: State, error: Option<string>)
    requires Audio(audioLength, s) && (forall p :: p in s.finalParts ==> Words(p) != [])
    requires s.settled.Some? ==> Sound(audioLength, s.settled.value)
    requires s.settled.None? && error.None? ==> s.finalParts != [] && s.finalTrigger.Some?
    ensures Sound(audioLength, Finish(s, error).settled.value)
  {
    hide Words, Transcript;
    if error.None? && s.settled.None? { TranscriptIsWords(s.finalParts); }
  }

  lemma {:induction false} StepKeepsAudio(model: Model, audioLength: nat, s: State, e: Event)
    requires Audio(audioLength, s)
    ensures Audio(audioLength, Step(model, audioLength, s, e))
  {
    hide Text, Transcript, ResponseError, OnMessage, OnChunk;
    match e
    case Received(m, now) => MessageLeavesAudio(model, s, m, now);
    case Chunk(now, ok) =>
      if s.sender.Sending? && s.sender.offset < PayloadLength(audioLength) && s.settled.None? {
        ChunkKeepsAudio(audioLength, s, now, ok);
      }
    case _ =>
  }

  lemma {:induction false} MessageLeavesAudio(model: Model, s: State, m: Message, now: int)
    ensures var r := OnMessage(model, s, m, now);
            (r.sentBytes, r.messagesSent, r.sender, r.speechEndAt)
              == (s.sentBytes, s.messagesSent, s.sender, s.speechEndAt)
  {
    hide Text, Transcript, Latency;
  }

  lemma {:induction false} ChunkKeepsAudio(audioLength: nat, s: State, now: int, ok: bool)
    requires Audio(audioLength, s) && s.sender.Sending? && s.sender.offset < PayloadLength(audioLength)
    ensures Audio(audioLength, OnChunk(audioLength, s, s.sender.offset, now, ok))
  {
    hide Transcript, Latency;
  }

  lemma {:induction false} StepKeepsParts(model: Model, audioLength: nat, s: State, e: Event)
    requires Parts(model, s)
    ensures Parts(model, Step(model, audioLength, s, e))
  {
    hide Text, Transcript, ResponseError, Words, OnMessage, Latency;
    if e.Received? { MessageKeepsParts(model, s, e.message, e.now); }
  }

  lemma {:induction false} MessageKeepsParts(model: Model, s: State, m: Message, now: int)
    requires Parts(model, s)
    ensures Parts(model, OnMessage(model, s, m, now))
  {
    hide Text, Transcript, Words, Latency;
    if m.EndOfTurn? || m.Results? { TextHasWords(m.text); }
  }

  lemma {:induction false} StepIsSound(model: Model, audioLength: nat, s: State, e: Event)
    requires Inv(model, audioLength, s) && s.settled.None?
    ensures var r := Step(model, audioLength, s, e); r.settled.Some? ==> Sound(audioLength, r.settled.value)
  {
    hide Text, Transcript, ResponseError, Words, Sound;
    StepKeepsAudio(model, audioLength, s, e);
    match e
    case Deadline => FinishIsSound(audioLength, s, Some("timeout"));
    case SocketError => FinishIsSound(audioLength, s, Some("websocket_error"));
    case UnexpectedResponse(code) => FinishIsSound(audioLength, s, Some(ResponseError(code)));
    case Opened =>
    case Chunk(now, ok) => FinishIsSound(audioLength, s.(sender := Over), Some("audio_send_error"));
    case AudioSent(ok) => FinishIsSound(audioLength, s.(sender := Over), Some("control_send_error"));
    case CloseControl(ok) =>
      if s.closeArmed { FinishIsSound(audioLength, s, if s.finalParts == [] then Some("missing_final") else None); }
    case EndControl =>
      FinishIsSound(audioLength, s, Some(if s.finalParts == [] then "missing_final" else "missing_end_of_turn"));
    case Received(m, now) => MessageIsSound(model, audioLength, s, m, now);
    case Closed =>
      FinishIsSound(audioLength, s,
        Some(if s.finalParts == [] then "closed_without_final" else "closed_without_end_of_turn"));
  }

  lemma {:induction false} MessageIsSound(model: Model, audioLength: nat, s: State, m: Message, now: int)
    requires Inv(model, audioLength, s) && s.settled.None?
    ensures var r := OnMessage(model, s, m, now); r.settled.Some? ==> Sound(audioLength, r.settled.value)
  {
    hide Text, Transcript, Words, Sound;
    match m
    case Ignored =>
    case ProviderError(credit) =>
      FinishIsSound(audioLength, s, Some(if credit then "account_limit" else "provider_error"));
    case EndOfTurn(t) =>
      TextHasWords(t);
      var text := Text(t);
      var q := s.(finalParts := if text == "" then s.finalParts else s.finalParts + [text], turnEndAt := Some(now),
                  finalTrigger := if s.finalTrigger.Some? then s.finalTrigger else Some("end_of_turn"));
      FinishIsSound(audioLength, q, if text == "" then Some("empty_final") else None);
    case Results(t, isFinal, speechFinal) =>
      TextHasWords(t);
      var text := Text(t);
      var p := if isFinal && text != "" then s.(finalParts := s.finalParts + [text]) else s;
      if isFinal && text != "" && s.finalizeSent {
        FinishIsSound(audioLength, p.(turnEndAt := Some(now)), None);
      } else {
        FinishIsSound(audioLength, p.(turnEndAt := Some(now), finalTrigger := Some("speech_final")),
                      if p.finalParts == [] then Some("empty_final") else None);
      }
    case UtteranceEnd =>
      if s.finalParts != [] {
        FinishIsSound(audioLength, s.(turnEndAt := Some(now), finalTrigger := Some("utterance_end")), None);
      }
  }

  /** Every event order keeps the invariant; a null error means a transcript with words and a known trigger. */
  lemma {:induction false} SessionInv(model: Model, audioLength: nat, events: seq<Event>)
    ensures Inv(model, audioLength, Session(model, audioLength, events))
  {
    hide Step;
    if events != [] {
      var before, e := events[..|events|-1], events[|events|-1];
      SessionInv(model, audioLength, before);
      var s := Session(model, audioLength, before);
      StepKeepsAudio(model, audioLength, s, e);
      StepKeepsParts(model, audioLength, s, e);
      if s.settled.Some? { StepKeepsOutcome(model, audioLength, s, e); } else { StepIsSound(model, audioLength, s, e); }
    }
  }

  // ----- what the error names

  /** The error of an outcome tells which event settled the session, and whether final words had been heard by then. */
  ghost predicate NamesCause(o: Outcome, e: Event, heard: bool) {
    && (o.error == Some("timeout") <==> e.Deadline?)
    && (o.error == Some("websocket_error") <==> e.SocketError?)
    && (o.error == Some("closed_without_final") <==> e.Closed? && !heard)
    && (o.error == Some("closed_without_end_of_turn") <==> e.Closed? && heard)
    && (o.error == Some("missing_end_of_turn") <==> e.EndControl? && heard)
    && (o.error == Some("missing_final") <==> (e.EndControl? || e.CloseControl?) && !heard)
    && (o.error == Some("audio_send_error") <==> e.Chunk?)
    && (o.error == Some("control_send_error") <==> e.AudioSent?)
    && (o.error == Some("account_limit") <==> e == UnexpectedResponse(402) || HasMessage(e, ProviderError(true)))
    && (o.error == Some("provider_error") <==> HasMessage(e, ProviderError(false)))
    && (o.error == Some("empty_final") <==> e.Received? && (e.message.EndOfTurn? || e.message.Results?) && !heard)
  }

  predicate HasMessage(e: Event, m: Message) { e.Received? && e.message == m }

  /** The error an event leaves behind when it settles a session. */
  function Cause(e: Event, heard: bool): Option<string> {
    match e
    case Deadline => Some("timeout")
    case SocketError => Some("websocket_error")
    case UnexpectedResponse(code) => Some(if code == 402 then "account_limit" else "http_" + Figures(code))
    case Chunk(_, _) => Some("audio_send_error")
    case AudioSent(_) => Some("control_send_error")
    case CloseControl(_) => if heard then None else Some("missing_final")
    case EndControl => Some(if heard then "missing_end_of_turn" else "missing_final")
    case Closed => Some(if heard then "closed_without_end_of_turn" else "closed_without_final")
    case Received(ProviderError(credit), _) => Some(if credit then "account_limit" else "provider_error")
    case Received(EndOfTurn(_), _) => if heard then None else Some("empty_final")
    case Received(Results(_, _, _), _) => if heard then None else Some("empty_final")
    case _ => None
  }

  /** Different causes have different names. */
  lemma {:induction false} CausesDiffer(o: Outcome, e: Event, heard: bool)
    requires o.error == Cause(e, heard)
    ensures NamesCause(o, e, heard)
  {
    hide Figures;
    if e.UnexpectedResponse? { ResponsesDiffer(e.code); }
  }

  lemma {:induction false} ResponsesDiffer(code: nat)
    ensures ResponseError(code) == "account_limit" <==> code == 402
    ensures ResponseError(code) !in {"timeout", "websocket_error", "closed_without_final", "closed_without_end_of_turn",
                                     "missing_end_of_turn", "missing_final", "audio_send_error", "control_send_error",
                                     "provider_error", "empty_final"}
  {
    hide Figures;
    if code != 402 {
      assert ResponseError(code) == "http_" + Figures(code);
      assert ResponseError(code)[0] == 'h';
    }
  }

  lemma {:induction false} StepLeavesCause(model: Model, audioLength: nat, s: State, e: Event)
    requires s.settled.None? && Step(model, audioLength, s, e).settled.Some?
    requires model.Flux? ==> s.finalParts == []
    ensures var r := Step(model, audioLength, s, e); r.settled.value.error == Cause(e, r.finalParts != [])
  {
    hide Text, Transcript, Figures, Latency, OnMessage;
    if e.Received? { MessageLeavesCause(model, s, e.message, e.now); }
  }

  lemma {:induction false} MessageLeavesCause(model: Model, s: State, m: Message, now: int)
    requires s.settled.None? && OnMessage(model, s, m, now).settled.Some?
    requires model.Flux? ==> s.finalParts == []
    ensures var r := OnMessage(model, s, m, now); r.settled.value.error == Cause(Received(m, now), r.finalParts != [])
  {
    hide Text, Transcript, Latency;
  }

  /** For every event order, of either model: the error of the outcome names the event that settled the session. */
  lemma {:induction false} ErrorNamesCause(model: Model, audioLength: nat, events: seq<Event>) returns (n: nat)
    requires Session(model, audioLength, events).settled.Some?
    ensures n < |events| && Session(model, audioLength, events[..n]).settled.None?
    ensures var s := Session(model, audioLength, events[..n+1]);
            && s.settled == Session(model, audioLength, events).settled
            && NamesCause(s.settled.value, events[n], s.finalParts != [])
  {
    hide Step, NamesCause, Cause;
    var before, e := events[..|events|-1], events[|events|-1];
    var s := Session(model, audioLength, before);
    if s.settled.Some? {
      StepKeepsOutcome(model, audioLength, s, e);
      n := ErrorNamesCause(model, audioLength, before);
      assert before[..n] == events[..n] && before[..n+1] == events[..n+1];
    } else {
      n := |events| - 1;
      assert events[..n] == before && events[..n+1] == events;
      SessionInv(model, audioLength, before);
      StepLeavesCause(model, audioLength, s, e);
      CausesDiffer(Session(model, audioLength, events).settled.value, e,
        Session(model, audioLength, events).finalParts != []);
    }
  }

  // ----- whose words the transcript holds

  /** The text of the first end of turn, if there is one. */
  function FirstEndOfTurn(events: seq<Event>): Option<Option<string>> {
    if events == [] then None
    else
      var earlier := FirstEndOfTurn(events[..|events|-1]);
      var e := events[|events|-1];
      if earlier.Some? then earlier
      else if e.Received? && e.message.EndOfTurn? then Some(e.message.text)
      else None
  }

  /**
   * A successful Flux session has exactly the words of the first end of turn, one blank
   * apart; and a session that has seen an end of turn is settled.
   */
  lemma {:induction false} FluxTranscript(audioLength: nat, events: seq<Event>)
    ensures var s := Session(Flux, audioLength, events);
            && (FirstEndOfTurn(events).Some? ==> s.settled.Some?)
            && (s.settled.Some? && s.settled.value.error.None? ==>
                  FirstEndOfTurn(events).Some? && FirstEndOfTurn(events).value.Some?
                  && s.settled.value.transcript == JoinSpaces(Words(FirstEndOfTurn(events).value.value)))
  {
    hide Words, Transcript, Text, ResponseError;
    if events != [] {
      var before, e := events[..|events|-1], events[|events|-1];
      FluxTranscript(audioLength, before);
      SessionInv(Flux, audioLength, before);
      var s := Session(Flux, audioLength, before);
      if s.settled.Some? {
        StepKeepsOutcome(Flux, audioLength, s, e);
      } else if e.Received? && e.message.EndOfTurn? {
        OneTurn(e.message.text);
      }
    }
  }

  lemma {:induction false} OneTurn(t: Option<string>)
    ensures Text(t) != "" ==> t.Some? && Transcript([] + [Text(t)]) == JoinSpaces(Words(t.value))
  {
    if Text(t) != "" {
      var parts := [] + [Text(t)];
      assert parts == [Text(t)];
      TextHasWords(t);
      TranscriptIsWords(parts);
      assert parts[1..] == [];
      assert WordsOfAll(parts) == Words(Text(t));
      WordsOfTrim(t.value);
    }
  }

  /** Whether an event brings a turn end with words in it. */
  predicate EndsTurnWithWords(e: Event) { e.Received? && e.message.EndOfTurn? && Text(e.message.text) != "" }

  /**
   * The event that settles a Flux session decides everything: success means exactly that it is an
   * end of turn with words, and then the latency runs from the end of speech to that event.
   */
  lemma {:induction false} FluxOutcome(audioLength: nat, events: seq<Event>) returns (n: nat)
    requires Session(Flux, audioLength, events).settled.Some?
    ensures n < |events| && Session(Flux, audioLength, events[..n]).settled.None?
    ensures Session(Flux, audioLength, events[..n+1]).settled == Session(Flux, audioLength, events).settled
    ensures var o, s := Session(Flux, audioLength, events).settled.value, Session(Flux, audioLength, events[..n]);
            && (o.error.None? <==> EndsTurnWithWords(events[n]))
            && (o.error.None? ==> o.latencyMs == if s.speechEndAt.Some?
                                                 then Some(events[n].now as real - s.speechEndAt.value) else None)
  {
    hide Step, Text;
    var before, e := events[..|events|-1], events[|events|-1];
    var s := Session(Flux, audioLength, before);
    if s.settled.Some? {
      StepKeepsOutcome(Flux, audioLength, s, e);
      n := FluxOutcome(audioLength, before);
      assert before[..n] == events[..n] && before[..n+1] == events[..n+1];
    } else {
      n := |events| - 1;
      assert events[..n] == before && events[..n+1] == events;
      SessionInv(Flux, audioLength, before);
      FluxSettles(audioLength, s, e);
    }
  }

  lemma {:induction false} FluxSettles(audioLength: nat, s: State, e: Event)
    requires s.settled.None? && s.finalParts == [] && Parts(Flux, s)
    ensures var r := Step(Flux, audioLength, s, e);
            r.settled.Some? ==>
              && (r.settled.value.error.None? <==> EndsTurnWithWords(e))
              && (r.settled.value.error.None? ==> r.settled.value.latencyMs == if s.speechEndAt.Some?
                                                    then Some(e.now as real - s.speechEndAt.value) else None)
  {
    hide Text, Transcript, ResponseError, OnMessage, Latency, Words;
    if e.Received? { FluxMessageSettles(s, e.message, e.now); }
  }

  lemma {:induction false} FluxMessageSettles(s: State, m: Message, now: int)
    requires s.settled.None? && s.finalParts == []
    ensures var r := OnMessage(Flux, s, m, now);
            r.settled.Some? ==>
              && (r.settled.value.error.None? <==> m.EndOfTurn? && Text(m.text) != "")
              && (r.settled.value.error.None? ==> r.settled.value.latencyMs == if s.speechEndAt.Some?
                                                    then Some(now as real - s.speechEndAt.value) else None)
  {
    hide Text, Transcript;
  }

  /** The end of speech falls within the 80 ms that the chunk holding it takes to play. */
  lemma {:induction false} SpeechEndsInChunk(model: Model, audioLength: nat, s: State, e: Event)
    requires Audio(audioLength, s) && s.speechEndAt.None? && Step(model, audioLength, s, e).speechEndAt.Some?
    ensures e.Chunk? && e.now as real < Step(model, audioLength, s, e).speechEndAt.value <= e.now as real + 80.0
  {
    hide Text, Transcript, ResponseError, OnMessage;
    if e.Received? { MessageLeavesAudio(model, s, e.message, e.now); }
  }

  /** The texts of the final results received, trimmed, blanks left out. */
  function FinalTexts(events: seq<Event>): seq<string> {
    if events == [] then []
    else
      var e := events[|events|-1];
      FinalTexts(events[..|events|-1])
      + (if e.Received? && e.message.Results? && e.message.isFinal && Text(e.message.text) != "" then
           [Text(e.message.text)] else [])
  }

  lemma {:induction false} NovaPartsStep(audioLength: nat, s: State, e: Event)
    ensures Step(Nova3, audioLength, s, e).finalParts
            == s.finalParts + (if e.Received? && e.message.Results? && e.message.isFinal && Text(e.message.text) != ""
                               then [Text(e.message.text)] else [])
  {
    hide Transcript, Text, ResponseError, Latency, OnMessage;
    if e.Received? { NovaPartsMessage(s, e.message, e.now); }
  }

  lemma {:induction false} NovaPartsMessage(s: State, m: Message, now: int)
    ensures OnMessage(Nova3, s, m, now).finalParts
            == s.finalParts + (if m.Results? && m.isFinal && Text(m.text) != "" then [Text(m.text)] else [])
  {
    hide Transcript, Text, Latency;
  }

  lemma {:induction false} NovaParts(audioLength: nat, events: seq<Event>)
    ensures Session(Nova3, audioLength, events).finalParts == FinalTexts(events)
  {
    hide Step, Text;
    if events != [] {
      NovaParts(audioLength, events[..|events|-1]);
      NovaPartsStep(audioLength, Session(Nova3, audioLength, events[..|events|-1]), events[|events|-1]);
    }
  }

  /** A successful Nova-3 session has the words of all final results up to its settlement, in order. */
  lemma {:induction false} NovaTranscript(audioLength: nat, events: seq<Event>) returns (n: nat)
    requires Session(Nova3, audioLength, events).settled.Some?
    requires Session(Nova3, audioLength, events).settled.value.error.None?
    ensures n < |events| && Session(Nova3, audioLength, events[..n]).settled.None?
    ensures Session(Nova3, audioLength, events[..n+1]).settled.Some?
    ensures Session(Nova3, audioLength, events).settled.value.transcript
            == JoinSpaces(WordsOfAll(FinalTexts(events[..n+1])))
  {
    hide Words, Transcript, Text, ResponseError;
    var before, e := events[..|events|-1], events[|events|-1];
    var s := Session(Nova3, audioLength, before);
    if s.settled.Some? {
      StepKeepsOutcome(Nova3, audioLength, s, e);
      n := NovaTranscript(audioLength, before);
      assert before[..n] == events[..n] && before[..n+1] == events[..n+1];
    } else {
      n := |events| - 1;
      assert events[..n] == before && events[..n+1] == events;
      NovaParts(audioLength, events);
      SessionInv(Nova3, audioLength, before);
      SuccessHasParts(audioLength, s, e);
      StepKeepsParts(Nova3, audioLength, s, e);
      TranscriptIsWords(FinalTexts(events));
    }
  }

  lemma {:induction false} SuccessHasParts(audioLength: nat, s: State, e: Event)
    requires s.settled.None?
    ensures var r := Step(Nova3, audioLength, s, e);
            r.settled.Some? && r.settled.value.error.None?
            ==> r.finalParts != [] && r.settled.value.transcript == Transcript(r.finalParts)
  {
    hide Transcript, Text, ResponseError, OnMessage, Latency;
    match e
    case Received(m, now) => NovaMessageHasParts(s, m, now);
    case _ =>
  }

  lemma {:induction false} NovaMessageHasParts(s: State, m: Message, now: int)
    requires s.settled.None?
    ensures var r := OnMessage(Nova3, s, m, now);
            r.settled.Some? && r.settled.value.error.None?
            ==> r.finalParts != [] && r.settled.value.transcript == Transcript(r.finalParts)
  {
    hide Transcript, Text, Latency;
  }

  /**
   * The events that may end a Nova-3 session well: a final of speech, any final words after Finalize, the end
   * of an utterance, or a close request that cannot be sent.
   */
  predicate MayEndNova(s: State, e: Event) {
    || (e.Received? && e.message.Results? && e.message.isFinal
        && (e.message.speechFinal || (s.finalizeSent && Text(e.message.text) != "")))
    || (e.Received? && e.message.UtteranceEnd?)
    || (e.CloseControl? && s.closeArmed)
  }

  /** A Nova-3 session succeeds exactly when such an event settles it and final words have been received. */
  lemma {:induction false} NovaOutcome(audioLength: nat, events: seq<Event>) returns (n: nat)
    requires Session(Nova3, audioLength, events).settled.Some?
    ensures n < |events| && Session(Nova3, audioLength, events[..n]).settled.None?
    ensures Session(Nova3, audioLength, events[..n+1]).settled == Session(Nova3, audioLength, events).settled
    ensures Session(Nova3, audioLength, events).settled.value.error.None?
            <==> FinalTexts(events[..n+1]) != [] && MayEndNova(Session(Nova3, audioLength, events[..n]), events[n])
  {
    hide Step, Text, MayEndNova, FinalTexts;
    var before, e := events[..|events|-1], events[|events|-1];
    var s := Session(Nova3, audioLength, before);
    if s.settled.Some? {
      StepKeepsOutcome(Nova3, audioLength, s, e);
      n := NovaOutcome(audioLength, before);
      assert before[..n] == events[..n] && before[..n+1] == events[..n+1];
    } else {
      n := |events| - 1;
      assert events[..n] == before && events[..n+1] == events;
      NovaParts(audioLength, events);
      NovaSettles(audioLength, s, e);
    }
  }

  lemma {:induction false} NovaSettles(audioLength: nat, s: State, e: Event)
    requires s.settled.None? && Step(Nova3, audioLength, s, e).settled.Some?
    ensures var r := Step(Nova3, audioLength, s, e);
            r.settled.value.error.None? <==> r.finalParts != [] && MayEndNova(s, e)
  {
    hide Text, Transcript, ResponseError, Latency, OnMessage;
    if e.Received? { NovaMessageSettles(s, e.message, e.now); }
  }

  lemma {:induction false} NovaMessageSettles(s: State, m: Message, now: int)
    requires s.settled.None? && OnMessage(Nova3, s, m, now).settled.Some?
    ensures var r := OnMessage(Nova3, s, m, now);
            r.settled.value.error.None? <==> r.finalParts != [] && MayEndNova(s, Received(m, now))
  {
    hide Text, Transcript, Latency;
  }
}
