/**
 * One streaming session of the tuning matrix (nb-a3-bench.ts): audio padded to whole
 * chunks, and settlement by final speech, by the deadline or by failure.
 */
module TuningSession {
  import opened Wrappers
  import opened Texts

  const CHUNK_MS: nat := 20
  const SILENCE_MS: nat := 1500

  /** 8 bytes a millisecond for A-law, 32 for linear samples. */
  datatype Task = Task(audioLength: nat, bytesPerMs: nat)
  {
    predicate Valid() { bytesPerMs == 8 || bytesPerMs == 32 }

    function StepBytes(): nat { CHUNK_MS * bytesPerMs }

    /** The audio length rounded up to whole chunks. */
    function AlignedLength(): nat
      requires Valid()
    { (audioLength + StepBytes() - 1) / StepBytes() * StepBytes() }

    function PayloadLength(): nat
      requires Valid()
    { audioLength + (AlignedLength() - audioLength) + SILENCE_MS * bytesPerMs }
  }

  datatype Message =
    | Ignored
    | ProviderError(code: string)
    | Results(text: Option<string>, isFinal: bool, speechFinal: bool)

  datatype Event =
    | Deadline
    | SocketError
    | Refused(code: string)
    | Opened
    | Chunk(now: int, ok: bool)                     // one turn of the sending loop; whether the send throws
    | AudioSent(ok: bool)
    | Received(message: Message, now: int)
    | Closed

  datatype Outcome = Outcome(transcript: string, error: Option<string>, latencyMs: Option<real>,
                             messagesSent: nat, sentBytes: nat)

  datatype Sender = Waiting | Sending(offset: nat) | Over

  datatype State = State(settled: Option<Outcome>, finals: seq<string>, speechEndAt: Option<real>, finalAt: Option<int>,
                         messagesSent: nat, sentBytes: nat, sender: Sender)

  const INITIAL := State(None, [], None, None, 0, 0, Waiting)

  function Finish(s: State, error: Option<string>): State {
    if s.settled.Some? then s
    else s.(settled := Some(Outcome(Transcript(s.finals), error,
              if s.speechEndAt.Some? && s.finalAt.Some? then
                Some(s.finalAt.value as real - s.speechEndAt.value) else None,
              s.messagesSent, s.sentBytes)))
  }

  function OnMessage(s: State, m: Message, now: int): State {
    match m
    case Ignored => s
    case ProviderError(code) => Finish(s, Some(code))
    case Results(t, isFinal, speechFinal) =>
      var p := if isFinal && Text(t) != "" then s.(finals := s.finals + [Text(t)]) else s;
      if speechFinal then Finish(p.(finalAt := Some(now)), if p.finals == [] then Some("empty_final") else None) else p
  }

  function OnChunk(task: Task, s: State, offset: nat, now: int): State
    requires task.Valid() && offset < task.PayloadLength()
  {
    var length := Min(task.StepBytes(), task.PayloadLength() - offset);
    s.(messagesSent := s.messagesSent + 1, sentBytes := s.sentBytes + length,
       sender := Sending(offset + task.StepBytes()),
       speechEndAt := if s.speechEndAt.None? && offset + length >= task.audioLength
                      then Some(now as real + Max(0, task.audioLength - offset) as real / task.bytesPerMs as real)
                      else s.speechEndAt)
  }

  function Step(task: Task, s: State, e: Event): State
    requires task.Valid()
  {
    match e
    case Deadline => Finish(s, if s.finals == [] then Some("timeout") else None)
    case SocketError => Finish(s, Some("websocket_error"))
    case Refused(code) => Finish(s, Some(code))
    case Opened => if s.sender.Waiting? then s.(sender := Sending(0)) else s
    case Chunk(now, ok) =>
      if !(s.sender.Sending? && s.sender.offset < task.PayloadLength() && s.settled.None?) then s
      else if ok then OnChunk(task, s, s.sender.offset, now)
      else s.(sender := Over)
    case AudioSent(ok) =>
      if !(s.sender.Sending? && (s.sender.offset >= task.PayloadLength() || s.settled.Some?)) then s
      else if s.settled.Some? then s.(sender := Over)
      else if ok then s.(sender := Over, messagesSent := s.messagesSent + 1)
      else Finish(s.(sender := Over), Some("finalize_send_error"))
    case Received(m, now) => OnMessage(s, m, now)
    case Closed => Finish(s, Some(if s.finals == [] then "closed_without_final" else "closed_without_speech_final"))
  }

  function Session(task: Task, events: seq<Event>): State
    requires task.Valid()
  {
    if events == [] then INITIAL else Step(task, Session(task, events[..|events|-1]), events[|events|-1])
  }

  // ----- the callbacks

  class Stream {
    const task: Task
    var settled: Option<Outcome>
    var finals: seq<string>
    var speechEndAt: Option<real>
    var finalAt: Option<int>
    var messagesSent: nat
    var sentBytes: nat
    var sender: Sender

    function View(): State
      reads this
    { State(settled, finals, speechEndAt, finalAt, messagesSent, sentBytes, sender) }

    constructor (task: Task)
      ensures View() == INITIAL && this.task == task
    {
      this.task := task;
      settled, finals, speechEndAt, finalAt, messagesSent, sentBytes, sender := None, [], None, None, 0, 0, Waiting;
    }

    method FinishWith(error: Option<string>)
      modifies this
      ensures View() == Finish(old(View()), error)
    {
      if settled.Some? { return; }
      var latency := if speechEndAt.Some? && finalAt.Some? then
                       Some(finalAt.value as real - speechEndAt.value) else None;
      settled := Some(Outcome(Trim(Collapse(JoinSpaces(finals))), error, latency, messagesSent, sentBytes));
    }

    /** A send that throws ends the loop and all that follows it, without settling the session. */
    method SendChunk(now: int, ok: bool)
      requires task.Valid()
      modifies this
      ensures View() == Step(task, old(View()), Chunk(now, ok))
    {
      if !sender.Sending? || sender.offset >= task.PayloadLength() || settled.Some? { return; }
      if !ok {
        sender := Over;
        return;
      }
      var offset := sender.offset;
      var length := Min(task.StepBytes(), task.PayloadLength() - offset);
      messagesSent := messagesSent + 1;
      sentBytes := sentBytes + length;
      if speechEndAt.None? && offset + length >= task.audioLength {
        speechEndAt := Some(now as real + Max(0, task.audioLength - offset) as real / task.bytesPerMs as real);
      }
      sender := Sending(offset + task.StepBytes());
    }

    method EndAudio(ok: bool)
      requires task.Valid()
      modifies this
      ensures View() == Step(task, old(View()), AudioSent(ok))
    {
      if !sender.Sending? || (sender.offset < task.PayloadLength() && settled.None?) { return; }
      sender := Over;
      if settled.None? {
        if ok { messagesSent := messagesSent + 1; } else { FinishWith(Some("finalize_send_error")); }
      }
    }

    method Receive(message: Message, now: int)
      requires task.Valid()
      modifies this
      ensures View() == Step(task, old(View()), Received(message, now))
    {
      match message
      case Ignored =>
      case ProviderError(code) => FinishWith(Some(code));
      case Results(t, isFinal, speechFinal) =>
        var text := Text(t);
        if isFinal && text != "" { finals := finals + [text]; }
        if speechFinal {
          finalAt := Some(now);
          FinishWith(if finals != [] then None else Some("empty_final"));
        }
    }

    /** The remaining callbacks: socket events and the 20 s timer. */
    method Fire(e: Event)
      requires task.Valid() && !e.Chunk? && !e.AudioSent? && !e.Received?
      modifies this
      ensures View() == Step(task, old(View()), e)
    {
      match e
      case Deadline => FinishWith(if finals != [] then None else Some("timeout"));
      case SocketError => FinishWith(Some("websocket_error"));
      case Refused(code) => FinishWith(Some(code));
      case Opened => if sender.Waiting? { sender := Sending(0); }
      case Closed =>
        if settled.None? {
          FinishWith(Some(if finals != [] then "closed_without_speech_final" else "closed_without_final"));
        }
    }
  }

  // ----- chunks are whole

  lemma {:induction false} AlignedIsWhole(task: Task)
    requires task.Valid()
    ensures task.AlignedLength() % task.StepBytes() == 0
    ensures task.audioLength <= task.AlignedLength() < task.audioLength + task.StepBytes()
    ensures task.PayloadLength() % task.StepBytes() == 0
  {}

  /** The sender has sent whole chunks only, and knows the end of speech once the chunk that holds it has left. */
  ghost predicate Audio(task: Task, s: State)
    requires task.Valid()
  {
    && s.sentBytes % task.StepBytes() == 0 && s.sentBytes <= task.PayloadLength()
    && (s.sender.Waiting? ==> s.sentBytes == 0)
    && (s.sender.Sending? ==> s.sender.offset == s.sentBytes)
    && (s.speechEndAt.Some? <==> s.sentBytes > 0 && task.audioLength <= s.sentBytes)
    && s.messagesSent <= s.sentBytes / task.StepBytes() + (if s.sender.Over? then 1 else 0)
    && s.messagesSent >= s.sentBytes / task.StepBytes()
  }

  lemma {:induction false} WholeChunk(step: nat, sent: nat, payload: nat)
    requires step == 160 || step == 640
    requires sent % step == 0 && payload % step == 0 && sent < payload
    ensures sent + step <= payload && (sent + step) % step == 0 && (sent + step) / step == sent / step + 1
  {
    if step == 160 {} else {}
  }

  lemma {:induction false} ChunkKeepsAudio(task: Task, s: State, now: int)
    requires task.Valid() && Audio(task, s) && s.sender.Sending? && s.sender.offset < task.PayloadLength()
    ensures Audio(task, OnChunk(task, s, s.sender.offset, now))
    ensures OnChunk(task, s, s.sender.offset, now).sentBytes == s.sentBytes + task.StepBytes()
  {
    AlignedIsWhole(task);
    WholeChunk(task.StepBytes(), s.sentBytes, task.PayloadLength());
  }

  lemma {:induction false} StepKeepsAudio(task: Task, s: State, e: Event)
    requires task.Valid() && Audio(task, s)
    ensures Audio(task, Step(task, s, e))
  {
    hide Text, Transcript, OnChunk;
    if e.Chunk? && e.ok && s.sender.Sending? && s.sender.offset < task.PayloadLength() && s.settled.None? {
      ChunkKeepsAudio(task, s, e.now);
    }
  }

  // ----- settlement

  lemma {:induction false} StepKeepsOutcome(task: Task, s: State, e: Event)
    requires task.Valid() && s.settled.Some?
    ensures Step(task, s, e).settled == s.settled
  {
    hide Text, Transcript, OnChunk;
  }

  /** Once settled, a session keeps its outcome through any later events. */
  lemma {:induction false} SettlesOnce(task: Task, events: seq<Event>, more: seq<Event>)
    requires task.Valid() && Session(task, events).settled.Some?
    ensures Session(task, events + more).settled == Session(task, events).settled
  {
    hide Step;
    if more == [] {
      assert events + more == events;
    } else {
      var all := events + more;
      assert all[..|all|-1] == events + more[..|more|-1];
      SettlesOnce(task, events, more[..|more|-1]);
      StepKeepsOutcome(task, Session(task, all[..|all|-1]), all[|all|-1]);
    }
  }

  lemma {:induction false} AlwaysSettles(task: Task, events: seq<Event>, i: nat)
    requires task.Valid() && i < |events|
    requires events[i].Deadline? || events[i].SocketError? || events[i].Refused? || events[i].Closed?
    ensures Session(task, events).settled.Some?
  {
    var upTo := events[..i+1];
    assert upTo[..i] == events[..i] && upTo + events[i+1..] == events;
    SettlesOnce(task, upTo, events[i+1..]);
  }

  /** The texts of the final results received, trimmed, blanks left out. */
  function FinalTexts(events: seq<Event>): seq<string> {
    if events == [] then []
    else
      var e := events[|events|-1];
      FinalTexts(events[..|events|-1])
      + (if e.Received? && e.message.Results? && e.message.isFinal && Text(e.message.text) != "" then
           [Text(e.message.text)] else [])
  }

  /** What the shared variables hold after any events, in terms of those events. */
  lemma {:induction false} SessionState(task: Task, events: seq<Event>)
    requires task.Valid()
    ensures Audio(task, Session(task, events)) && Session(task, events).finals == FinalTexts(events)
    ensures forall p :: p in FinalTexts(events) ==> Words(p) != []
  {
    hide Text, Transcript, OnChunk, Audio, Words;
    if events == [] {
      assert Audio(task, INITIAL) by { NothingSent(task); }
    } else {
      var before, e := events[..|events|-1], events[|events|-1];
      SessionState(task, before);
      StepKeepsAudio(task, Session(task, before), e);
      FinalsStep(task, Session(task, before), e);
      if e.Received? && e.message.Results? { TextHasWords(e.message.text); }
    }
  }

  lemma {:induction false} NothingSent(task: Task)
    requires task.Valid()
    ensures Audio(task, INITIAL)
  {}

  lemma {:induction false} FinalsStep(task: Task, s: State, e: Event)
    requires task.Valid()
    ensures Step(task, s, e).finals
            == s.finals + (if e.Received? && e.message.Results? && e.message.isFinal && Text(e.message.text) != ""
                           then [Text(e.message.text)] else [])
  {
    hide Text, Transcript;
  }

  /** The deadline and a final of speech are the two events that may settle without an error. */
  predicate MaySucceed(e: Event) { e.Deadline? || (e.Received? && e.message.Results? && e.message.speechFinal) }

  /** The event that settles a session, and what the outcome says about the events up to it. */
  lemma {:induction false} OutcomeExplained(task: Task, events: seq<Event>) returns (n: nat)
    requires task.Valid() && Session(task, events).settled.Some?
    ensures n < |events| && Session(task, events[..n]).settled.None?
    ensures Session(task, events[..n+1]).settled == Session(task, events).settled
    ensures var o := Session(task, events).settled.value;
            && (o.error.None? <==> FinalTexts(events[..n+1]) != [] && MaySucceed(events[n]))
            && o.transcript == JoinSpaces(WordsOfAll(FinalTexts(events[..n+1])))
            && (o.error.None? ==> o.transcript != "")
  {
    hide Text, Transcript, Words, Step, MaySucceed, WordsOfAll, JoinSpaces, FinalTexts, Audio;
    var before, e := events[..|events|-1], events[|events|-1];
    if Session(task, before).settled.Some? {
      StepKeepsOutcome(task, Session(task, before), e);
      n := OutcomeExplained(task, before);
      assert before[..n] == events[..n] && before[..n+1] == events[..n+1];
    } else {
      n := |events| - 1;
      assert events[..n] == before && events[..n+1] == events;
      SessionState(task, before);
      SessionState(task, events);
      SettlingStep(task, Session(task, before), e);
      TranscriptIsWords(FinalTexts(events));
    }
  }

  lemma {:induction false} SettlingStep(task: Task, s: State, e: Event)
    requires task.Valid() && s.settled.None? && Step(task, s, e).settled.Some?
    ensures var r := Step(task, s, e);
            && r.settled.value.transcript == Transcript(r.finals)
            && (r.settled.value.error.None? <==> r.finals != [] && MaySucceed(e))
  {
    hide Text, Transcript;
  }
}
