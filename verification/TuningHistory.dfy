/**
 * The outcome of a session of the tuning matrix (nb-a3-bench.ts) in terms of its events alone: what was sent and
 * heard, without the shared variables.
 */
module TuningHistory {
  import opened Wrappers
  import opened Texts
  import opened TuningSession

  // ----- what has been sent

  /** The bytes of 20 ms. */
  function ChunkBytes(task: Task): nat
    requires task.Valid()
  { if task.bytesPerMs == 8 then 160 else 640 }

  /** As many chunks as hold the audio, and 75 of silence. */
  function Chunks(task: Task): nat
    requires task.Valid()
  { (task.audioLength + ChunkBytes(task) - 1) / ChunkBytes(task) + 75 }

  /** The times at which chunks were sent: from the opening on, until all are through or a send throws. */
  function SendTimes(task: Task, events: seq<Event>): seq<int>
    requires task.Valid()
    decreases |events|, 0
  {
    if events == [] then []
    else
      var before, e := events[..|events|-1], events[|events|-1];
      var sent := SendTimes(task, before);
      if e.Chunk? && e.ok && Sends(task, before) then sent + [e.now] else sent
  }

  /** A send has thrown. */
  predicate Broken(task: Task, events: seq<Event>)
    requires task.Valid()
    decreases |events|, 0
  {
    events != []
    && var before, e := events[..|events|-1], events[|events|-1];
       Broken(task, before) || (e.Chunk? && !e.ok && Sends(task, before))
  }

  /** A chunk is due. */
  predicate Sends(task: Task, events: seq<Event>)
    requires task.Valid()
    decreases |events|, 1
  { Opened in events && !Broken(task, events) && |SendTimes(task, events)| < Chunks(task) }

  predicate AllSent(task: Task, events: seq<Event>)
    requires task.Valid()
  { Opened in events && !Broken(task, events) && |SendTimes(task, events)| >= Chunks(task) }

  /** The request for the last results has been sent. */
  predicate Finalized(task: Task, events: seq<Event>)
    requires task.Valid()
  {
    events != []
    && (Finalized(task, events[..|events|-1])
        || (events[|events|-1] == AudioSent(true) && AllSent(task, events[..|events|-1])))
  }

  /** The moment at which the last byte of speech is played; with no audio, the first chunk is sent then. */
  function EndOfSpeech(task: Task, sent: seq<int>): Option<real>
    requires task.Valid()
  {
    if sent == [] || task.audioLength > ChunkBytes(task) * |sent| then None
    else if task.audioLength == 0 then Some(sent[0] as real)
    else
      var k := (task.audioLength - 1) / ChunkBytes(task);
      LastChunk(task, |sent|);
      Some(sent[k] as real + (task.audioLength - ChunkBytes(task) * k) as real / task.bytesPerMs as real)
  }

  lemma {:induction false} LastChunk(task: Task, n: nat)
    requires task.Valid() && 0 < task.audioLength <= ChunkBytes(task) * n
    ensures 0 <= (task.audioLength - 1) / ChunkBytes(task) < n
  {
    if task.bytesPerMs == 8 {} else {}
  }

  // ----- what has been heard

  function NewWords(e: Event): seq<string> {
    match e
    case Received(Results(t, isFinal, _), _) => if isFinal then WordsOf(t) else []
    case _ => []
  }

  function Heard(events: seq<Event>): seq<string> {
    if events == [] then [] else Heard(events[..|events|-1]) + NewWords(events[|events|-1])
  }

  // ----- the outcome

  /** Whether an event settles a session that is not settled. */
  predicate Settles(task: Task, before: seq<Event>, e: Event)
    requires task.Valid()
  {
    match e
    case Deadline => true
    case SocketError => true
    case Refused(_) => true
    case Closed => true
    case Opened => false
    case Chunk(_, _) => false
    case AudioSent(ok) => !ok && AllSent(task, before) && !Finalized(task, before)
    case Received(m, _) => m.ProviderError? || (m.Results? && m.speechFinal)
  }

  /** The error an event leaves behind when it settles a session. */
  function Cause(e: Event, heard: bool): Option<string> {
    match e
    case Deadline => if heard then None else Some("timeout")
    case SocketError => Some("websocket_error")
    case Refused(code) => Some(code)
    case AudioSent(_) => Some("finalize_send_error")
    case Closed => Some(if heard then "closed_without_speech_final" else "closed_without_final")
    case Received(ProviderError(code), _) => Some(code)
    case Received(Results(_, _, _), _) => if heard then None else Some("empty_final")
    case _ => None
  }

  /** The outcome when `e` settles a session after `before`. */
  function OutcomeAt(task: Task, before: seq<Event>, e: Event): Outcome
    requires task.Valid()
  {
    var sent, heard := SendTimes(task, before), Heard(before) + NewWords(e);
    var spoken := EndOfSpeech(task, sent);
    Outcome(JoinSpaces(heard), Cause(e, heard != []),
            if e.Received? && e.message.Results? && spoken.Some? then Some(e.now as real - spoken.value) else None,
            |sent| + (if Finalized(task, before) then 1 else 0), ChunkBytes(task) * |sent|)
  }

  /** The outcome after any events: that of the first one that settles the session. */
  function Expected(task: Task, events: seq<Event>): Option<Outcome>
    requires task.Valid()
  {
    if events == [] then None
    else
      var before, e := events[..|events|-1], events[|events|-1];
      var earlier := Expected(task, before);
      if earlier.Some? then earlier
      else if Settles(task, before, e) then Some(OutcomeAt(task, before, e))
      else None
  }

  // ----- the shared variables tell the history

  ghost predicate Sent(task: Task, events: seq<Event>, s: State)
    requires task.Valid()
  {
    var sent := SendTimes(task, events);
    && s.messagesSent == |sent| + (if Finalized(task, events) then 1 else 0)
    && s.sentBytes == ChunkBytes(task) * |sent| && s.speechEndAt == EndOfSpeech(task, sent)
    && s.sender == if Opened !in events then Waiting
                   else if Broken(task, events) || Finalized(task, events) then Over
                   else Sending(ChunkBytes(task) * |sent|)
  }

  ghost predicate Said(events: seq<Event>, s: State) {
    && WordsOfAll(s.finals) == Heard(events) && (forall p :: p in s.finals ==> Words(p) != []) && s.finalAt.None?
  }

  /** The variables of a session that is not settled. */
  ghost predicate Tells(task: Task, events: seq<Event>, s: State)
    requires task.Valid()
  { s.settled.None? && Sent(task, events, s) && Said(events, s) }

  lemma {:induction false} NothingTold(task: Task)
    requires task.Valid()
    ensures Tells(task, [], INITIAL)
  {}

  lemma {:induction false} OneMore(task: Task, before: seq<Event>, e: Event)
    requires task.Valid()
    ensures var events := before + [e];
            && events[..|events|-1] == before && events[|events|-1] == e
            && (Opened in events <==> Opened in before || e == Opened)
            && Heard(events) == Heard(before) + NewWords(e)
            && Heard(before) + [] == Heard(before)
  {
    var events := before + [e];
    assert events[..|events|-1] == before && events[|events|-1] == e;
  }

  /** The sending history after one more event. */
  lemma {:induction false} HistoryNext(task: Task, before: seq<Event>, e: Event)
    requires task.Valid()
    ensures SendTimes(task, before + [e])
            == if e.Chunk? && e.ok && Sends(task, before) then SendTimes(task, before) + [e.now]
               else SendTimes(task, before)
    ensures Broken(task, before + [e]) == (Broken(task, before) || (e.Chunk? && !e.ok && Sends(task, before)))
    ensures Finalized(task, before + [e])
            == (Finalized(task, before) || (e == AudioSent(true) && AllSent(task, before)))
  {
    OneMore(task, before, e);
  }

  /** Once all has been sent, no send throws any more, and no chunk is due. */
  lemma {:induction false} FinalizedIsSent(task: Task, before: seq<Event>)
    requires task.Valid() && Finalized(task, before)
    ensures AllSent(task, before)
  {
    hide SendTimes, Broken;
    var earlier, e := before[..|before|-1], before[|before|-1];
    if Finalized(task, earlier) { FinalizedIsSent(task, earlier); }
    assert before == earlier + [e];
    OneMore(task, earlier, e);
    HistoryNext(task, earlier, e);
  }

  lemma {:induction false} NotOpen(task: Task, before: seq<Event>)
    requires task.Valid() && Opened !in before
    ensures SendTimes(task, before) == [] && !Broken(task, before) && !Finalized(task, before)
  {
    if before != [] {
      assert before == before[..|before|-1] + [before[|before|-1]];
      NotOpen(task, before[..|before|-1]);
    }
  }

  lemma {:induction false} PayloadIsChunks(task: Task, n: nat)
    requires task.Valid()
    ensures task.StepBytes() == ChunkBytes(task) && task.PayloadLength() == ChunkBytes(task) * Chunks(task)
    ensures ChunkBytes(task) * n < task.PayloadLength() <==> n < Chunks(task)
    ensures ChunkBytes(task) * (n + 1) == ChunkBytes(task) * n + ChunkBytes(task)
  {
    if task.bytesPerMs == 8 {} else {}
  }

  lemma {:induction false} SpeechEnds(task: Task, sent: seq<int>, now: int)
    requires task.Valid() && |sent| < Chunks(task)
    ensures var offset := ChunkBytes(task) * |sent|;
            EndOfSpeech(task, sent + [now])
            == if EndOfSpeech(task, sent).None? && offset + ChunkBytes(task) >= task.audioLength
               then Some(now as real + Max(0, task.audioLength - offset) as real / task.bytesPerMs as real)
               else EndOfSpeech(task, sent)
  {
    hide ChunkBytes, Chunks;
    PayloadIsChunks(task, |sent|);
    if 0 < task.audioLength <= ChunkBytes(task) * (|sent| + 1) { LastChunkIs(task, |sent|); }
  }

  lemma {:induction false} LastChunkIs(task: Task, n: nat)
    requires task.Valid() && 0 < task.audioLength <= ChunkBytes(task) * (n + 1)
    ensures var k := (task.audioLength - 1) / ChunkBytes(task);
            0 <= k <= n && (k == n <==> ChunkBytes(task) * n < task.audioLength)
  {
    if task.bytesPerMs == 8 {
      assert ChunkBytes(task) == 160;
    } else {
      assert ChunkBytes(task) == 640;
    }
  }

  // ----- one event

  lemma {:induction false} PartsAreHeard(parts: seq<string>)
    requires forall p :: p in parts ==> Words(p) != []
    ensures parts == [] <==> WordsOfAll(parts) == []
  {
    hide Words;
    if parts != [] { assert parts[0] in parts; }
  }

  lemma {:induction false} FinishTells(task: Task, before: seq<Event>, e: Event, q: State, error: Option<string>)
    requires task.Valid() && q.settled.None?
    requires q.messagesSent == |SendTimes(task, before)| + (if Finalized(task, before) then 1 else 0)
    requires q.sentBytes == ChunkBytes(task) * |SendTimes(task, before)|
    requires q.speechEndAt == EndOfSpeech(task, SendTimes(task, before))
    requires WordsOfAll(q.finals) == Heard(before) + NewWords(e) && forall p :: p in q.finals ==> Words(p) != []
    requires error == Cause(e, q.finals != [])
    requires q.finalAt == if e.Received? && e.message.Results? then Some(e.now) else None
    ensures Finish(q, error).settled == Some(OutcomeAt(task, before, e))
  {
    hide Words, Transcript, Cause, SendTimes, EndOfSpeech, Finalized;
    TranscriptIsWords(q.finals);
    PartsAreHeard(q.finals);
  }

  ghost predicate TellsNext(task: Task, before: seq<Event>, e: Event, r: State)
    requires task.Valid()
  {
    if Settles(task, before, e) then r.settled == Some(OutcomeAt(task, before, e)) else Tells(task, before + [e], r)
  }

  lemma {:induction false} SocketTells(task: Task, before: seq<Event>, e: Event, s: State)
    requires task.Valid() && Tells(task, before, s)
    requires e.Deadline? || e.SocketError? || e.Refused? || e.Closed?
    ensures TellsNext(task, before, e, Step(task, s, e))
  {
    hide Words, SendTimes, EndOfSpeech, Finalized, Finish, OutcomeAt, Broken;
    OneMore(task, before, e);
    FinishTells(task, before, e, s, Cause(e, s.finals != []));
  }

  lemma {:induction false} OpenTells(task: Task, before: seq<Event>, s: State)
    requires task.Valid() && Tells(task, before, s)
    ensures TellsNext(task, before, Opened, Step(task, s, Opened))
  {
    hide Words, SendTimes, EndOfSpeech, Finalized, Finish, OutcomeAt, Broken;
    OneMore(task, before, Opened);
    HistoryNext(task, before, Opened);
    if Opened !in before { NotOpen(task, before); }
  }

  lemma {:induction false} SendTells(task: Task, before: seq<Event>, now: int, ok: bool, s: State)
    requires task.Valid() && Tells(task, before, s)
    ensures TellsNext(task, before, Chunk(now, ok), Step(task, s, Chunk(now, ok)))
  {
    hide Words, SendTimes, EndOfSpeech, Finalized, Finish, OutcomeAt, Broken, OnChunk, Chunks, ChunkBytes;
    var e, n := Chunk(now, ok), |SendTimes(task, before)|;
    OneMore(task, before, e);
    HistoryNext(task, before, e);
    PayloadIsChunks(task, n);
    if Finalized(task, before) { FinalizedIsSent(task, before); }
    if Opened !in before { NotOpen(task, before); }
    if Sends(task, before) && ok {
      ChunkSent(task, s, n, now);
      SpeechEnds(task, SendTimes(task, before), now);
    }
  }

  lemma {:induction false} ChunkSent(task: Task, s: State, n: nat, now: int)
    requires task.Valid() && s.sender == Sending(ChunkBytes(task) * n) && n < Chunks(task)
    requires ChunkBytes(task) * n < task.PayloadLength()
    requires s.sentBytes == ChunkBytes(task) * n
    ensures var offset := ChunkBytes(task) * n;
            OnChunk(task, s, offset, now)
            == s.(messagesSent := s.messagesSent + 1, sentBytes := ChunkBytes(task) * (n + 1),
                  sender := Sending(ChunkBytes(task) * (n + 1)),
                  speechEndAt := if s.speechEndAt.None? && offset + ChunkBytes(task) >= task.audioLength
                    then Some(now as real + Max(0, task.audioLength - offset) as real / task.bytesPerMs as real)
                    else s.speechEndAt)
  {
    PayloadIsChunks(task, n);
    PayloadIsChunks(task, n + 1);
    WholeChunks(task, n);
  }

  lemma {:induction false} WholeChunks(task: Task, n: nat)
    requires task.Valid() && n < Chunks(task)
    ensures ChunkBytes(task) * n + ChunkBytes(task) <= ChunkBytes(task) * Chunks(task)
  {
    if task.bytesPerMs == 8 {} else {}
  }

  lemma {:induction false} RequestTells(task: Task, before: seq<Event>, ok: bool, s: State)
    requires task.Valid() && Tells(task, before, s)
    ensures TellsNext(task, before, AudioSent(ok), Step(task, s, AudioSent(ok)))
  {
    hide Words, SendTimes, EndOfSpeech, Finalized, Finish, OutcomeAt, Broken, Chunks, ChunkBytes;
    var e := AudioSent(ok);
    OneMore(task, before, e);
    HistoryNext(task, before, e);
    PayloadIsChunks(task, |SendTimes(task, before)|);
    if Finalized(task, before) { FinalizedIsSent(task, before); }
    if Settles(task, before, e) { FinishTells(task, before, e, s.(sender := Over), Some("finalize_send_error")); }
  }

  lemma {:induction false} MessageTells(task: Task, before: seq<Event>, m: Message, now: int, s: State)
    requires task.Valid() && Tells(task, before, s)
    ensures TellsNext(task, before, Received(m, now), Step(task, s, Received(m, now)))
  {
    hide Words, Text, WordsOf, WordsOfAll, SendTimes, EndOfSpeech, Finalized, Finish, OutcomeAt, Broken;
    var e := Received(m, now);
    OneMore(task, before, e);
    HistoryNext(task, before, e);
    match m
    case Ignored =>
    case ProviderError(code) => FinishTells(task, before, e, s, Some(code));
    case Results(t, isFinal, speechFinal) =>
      PartsTell(before, t, isFinal, speechFinal, now, s);
      if speechFinal { ResultsSettle(task, before, t, isFinal, now, s); }
  }

  lemma {:induction false} PartsTell(before: seq<Event>, t: Option<string>, isFinal: bool, speechFinal: bool, now: int,
                                     s: State)
    requires Said(before, s)
    ensures var p := if isFinal && Text(t) != "" then s.(finals := s.finals + [Text(t)]) else s;
            && WordsOfAll(p.finals) == Heard(before) + NewWords(Received(Results(t, isFinal, speechFinal), now))
            && (forall part :: part in p.finals ==> Words(part) != []) && p.finalAt.None?
  {
    hide Words, Text, WordsOf, WordsOfAll, Heard;
    TextIsWords(t);
    WordsOfMore(s.finals, Text(t));
    assert Heard(before) + [] == Heard(before);
  }

  lemma {:induction false} ResultsSettle(task: Task, before: seq<Event>, t: Option<string>, isFinal: bool, now: int,
                                         s: State)
    requires task.Valid() && Tells(task, before, s)
    ensures var e := Received(Results(t, isFinal, true), now);
            Step(task, s, e).settled == Some(OutcomeAt(task, before, e))
  {
    hide Words, Text, WordsOf, WordsOfAll, Heard, SendTimes, EndOfSpeech, Finalized, Finish, OutcomeAt, Broken;
    var p := if isFinal && Text(t) != "" then s.(finals := s.finals + [Text(t)]) else s;
    PartsTell(before, t, isFinal, true, now, s);
    FinishTells(task, before, Received(Results(t, isFinal, true), now), p.(finalAt := Some(now)),
                if p.finals == [] then Some("empty_final") else None);
  }

  lemma {:induction false} StepTells(task: Task, before: seq<Event>, e: Event, s: State)
    requires task.Valid() && Tells(task, before, s)
    ensures TellsNext(task, before, e, Step(task, s, e))
  {
    hide TellsNext, Tells, Step;
    match e
    case Opened => OpenTells(task, before, s);
    case Chunk(now, ok) => SendTells(task, before, now, ok, s);
    case AudioSent(ok) => RequestTells(task, before, ok, s);
    case Received(m, now) => MessageTells(task, before, m, now, s);
    case _ => SocketTells(task, before, e, s);
  }

  /**
   * Main result: for every order of events, the session has exactly the outcome that its events call for, every
   * field of it, and none before one of them settles it.
   */
  lemma {:induction false} OutcomeIsExpected(task: Task, events: seq<Event>)
    requires task.Valid()
    ensures Session(task, events).settled == Expected(task, events)
    ensures Expected(task, events).None? ==> Tells(task, events, Session(task, events))
  {
    hide Step, Tells, Settles, OutcomeAt;
    if events == [] {
      NothingTold(task);
    } else {
      var before, e := events[..|events|-1], events[|events|-1];
      var s := Session(task, before);
      OutcomeIsExpected(task, before);
      assert before + [e] == events;
      if s.settled.Some? { StepKeepsOutcome(task, s, e); } else {
        StepTells(task, before, e, s);
        TellsIsOpen(task, events, Step(task, s, e));
      }
    }
  }

  lemma {:induction false} TellsIsOpen(task: Task, events: seq<Event>, s: State)
    requires task.Valid()
    ensures Tells(task, events, s) ==> s.settled.None?
  {}
}
