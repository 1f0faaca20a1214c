/**
 * The outcome of a session of the paired comparison (nb-flux-bench.ts) in terms of its events alone: what was
 * sent, said and heard, without the shared variables.
 */
module FluxHistory {
  import opened Wrappers
  import opened Texts
  import opened FluxSession

  // ----- what has been sent

  /** The times at which chunks were sent: from the opening on, until audio and silence are through. */
  function SendTimes(audioLength: nat, events: seq<Event>): seq<int> {
    if events == [] then []
    else
      var before, e := events[..|events|-1], events[|events|-1];
      var sent := SendTimes(audioLength, before);
      if e.Chunk? && e.ok && Opened in before && 640 * |sent| < audioLength + 12000 then sent + [e.now] else sent
  }

  predicate AllSent(audioLength: nat, events: seq<Event>) {
    Opened in events && 640 * |SendTimes(audioLength, events)| >= audioLength + 12000
  }

  /** The request to end the turn has been sent. */
  predicate Requested(audioLength: nat, events: seq<Event>) {
    events != []
    && (Requested(audioLength, events[..|events|-1])
        || (events[|events|-1] == AudioSent(true) && AllSent(audioLength, events[..|events|-1])))
  }

  /** The timer that `fires` has been armed by the request and has not fired. */
  predicate Pending(audioLength: nat, events: seq<Event>, fires: Event -> bool) {
    events != []
    && if Requested(audioLength, events[..|events|-1])
       then Pending(audioLength, events[..|events|-1], fires) && !fires(events[|events|-1])
       else Requested(audioLength, events)
  }

  /** The moment at which the last byte of speech is played: 8 bytes a millisecond, 640 bytes a chunk. */
  function EndOfSpeech(audioLength: nat, sent: seq<int>): Option<real> {
    if 0 < audioLength <= 640 * |sent| then
      var k := (audioLength - 1) / 640;
      Some(sent[k] as real + (audioLength - 640 * k) as real / 8.0)
    else None
  }

  // ----- what has been heard

  /** The words an event adds to the transcript. */
  function NewWords(model: Model, e: Event): seq<string> {
    match e
    case Received(EndOfTurn(t), _) => if model.Flux? then WordsOf(t) else []
    case Received(Results(t, isFinal, _), _) => if model.Nova3? && isFinal then WordsOf(t) else []
    case _ => []
  }

  function Heard(model: Model, events: seq<Event>): seq<string> {
    if events == [] then []
    else Heard(model, events[..|events|-1]) + NewWords(model, events[|events|-1])
  }

  // ----- the outcome

  /** Whether an event settles a session that is not settled. */
  predicate Settles(model: Model, audioLength: nat, before: seq<Event>, e: Event) {
    match e
    case Deadline => true
    case SocketError => true
    case UnexpectedResponse(_) => true
    case Closed => true
    case Opened => false
    case Chunk(_, ok) => !ok && Opened in before && !AllSent(audioLength, before)
    case AudioSent(ok) => !ok && AllSent(audioLength, before) && !Requested(audioLength, before)
    case CloseControl(ok) =>
      !ok && model.Nova3? && Pending(audioLength, before, (e: Event) => e.CloseControl?)
    case EndControl => Pending(audioLength, before, (e: Event) => e.EndControl?)
    case Received(m, _) =>
      match m
      case Ignored => false
      case ProviderError(_) => true
      case EndOfTurn(_) => model.Flux?
      case Results(t, isFinal, speechFinal) =>
        model.Nova3? && isFinal && (speechFinal || (WordsOf(t) != [] && Requested(audioLength, before)))
      case UtteranceEnd => model.Nova3? && Heard(model, before) != []
  }

  /** An end of turn, a final result or the end of an utterance. */
  predicate EndsTurn(e: Event) {
    e.Received? && (e.message.EndOfTurn? || e.message.Results? || e.message.UtteranceEnd?)
  }

  /** What is said to have ended the turn: the message, unless it answers the request; or the request. */
  function Trigger(model: Model, requested: bool, e: Event): Option<string> {
    var request := if model.Flux? then "force_end_turn" else "finalize";
    match e
    case Received(EndOfTurn(_), _) => Some(if requested then request else "end_of_turn")
    case Received(Results(t, _, _), _) => Some(if requested && WordsOf(t) != [] then request else "speech_final")
    case Received(UtteranceEnd, _) => Some("utterance_end")
    case _ => if requested then Some(request) else None
  }

  /** The outcome when `e` settles a session after `before`. */
  function OutcomeAt(model: Model, audioLength: nat, before: seq<Event>, e: Event): Outcome {
    var sent, heard := SendTimes(audioLength, before), Heard(model, before) + NewWords(model, e);
    var spoken := EndOfSpeech(audioLength, sent);
    Outcome(JoinSpaces(heard), Cause(e, heard != []),
            if EndsTurn(e) && spoken.Some? then Some(e.now as real - spoken.value) else None,
            Trigger(model, Requested(audioLength, before), e), |sent|,
            Min(640 * |sent|, audioLength + 12000) as real / 8.0)
  }

  /** The outcome after any events: that of the first one that settles the session. */
  function Expected(model: Model, audioLength: nat, events: seq<Event>): Option<Outcome> {
    if events == [] then None
    else
      var before, e := events[..|events|-1], events[|events|-1];
      var earlier := Expected(model, audioLength, before);
      if earlier.Some? then earlier
      else if Settles(model, audioLength, before, e) then Some(OutcomeAt(model, audioLength, before, e))
      else None
  }

  // ----- the shared variables tell the history

  function Label(model: Model): string { if model.Flux? then "force_end_turn" else "finalize" }

  ghost predicate Sent(audioLength: nat, events: seq<Event>, s: State) {
    var sent := SendTimes(audioLength, events);
    && s.messagesSent == |sent| && s.sentBytes == Min(640 * |sent|, audioLength + 12000)
    && s.speechEndAt == EndOfSpeech(audioLength, sent)
    && s.sender == if Opened !in events then Waiting
                   else if Requested(audioLength, events) then Over else Sending(640 * |sent|)
  }

  ghost predicate Armed(model: Model, audioLength: nat, events: seq<Event>, s: State) {
    var requested := Requested(audioLength, events);
    && s.finalTrigger == (if requested then Some(Label(model)) else None)
    && s.finalizeSent == (requested && model.Nova3?)
    && s.closeArmed == (model.Nova3? && Pending(audioLength, events, (e: Event) => e.CloseControl?))
    && s.endArmed == Pending(audioLength, events, (e: Event) => e.EndControl?)
  }

  ghost predicate Said(model: Model, events: seq<Event>, s: State) {
    && WordsOfAll(s.finalParts) == Heard(model, events) && (forall p :: p in s.finalParts ==> Words(p) != [])
    && s.turnEndAt.None? && (model.Flux? ==> s.finalParts == [])
  }

  /** The variables of a session that is not settled. */
  ghost predicate Tells(model: Model, audioLength: nat, events: seq<Event>, s: State) {
    s.settled.None? && Sent(audioLength, events, s) && Armed(model, audioLength, events, s) && Said(model, events, s)
  }

  lemma {:induction false} NothingTold(model: Model, audioLength: nat)
    ensures Tells(model, audioLength, [], INITIAL)
  {}

  /** One more event on top of `before`. */
  lemma {:induction false} OneMore(model: Model, audioLength: nat, before: seq<Event>, e: Event)
    ensures var events := before + [e];
            && events[..|events|-1] == before && events[|events|-1] == e
            && (Opened in events <==> Opened in before || e == Opened)
  {}

  // ----- one event

  lemma {:induction false} ChunkTells(audioLength: nat, before: seq<Event>, now: int, s: State)
    requires Sent(audioLength, before, s) && s.sender.Sending? && s.sender.offset < PayloadLength(audioLength)
    ensures var events := before + [Chunk(now, true)];
            && Sent(audioLength, events, OnChunk(audioLength, s, s.sender.offset, now, true))
            && Requested(audioLength, events) == Requested(audioLength, before)
  {
    OneMore(Flux, audioLength, before, Chunk(now, true));
    var sent := SendTimes(audioLength, before);
    assert SendTimes(audioLength, before + [Chunk(now, true)]) == sent + [now];
    SpeechEnds(audioLength, sent, now);
  }

  lemma {:induction false} SpeechEnds(audioLength: nat, sent: seq<int>, now: int)
    requires 640 * |sent| < audioLength + 12000
    ensures EndOfSpeech(audioLength, sent + [now])
            == if 640 * |sent| < audioLength <= 640 * (|sent| + 1)
               then Some(now as real + (audioLength - 640 * |sent|) as real / 8.0) else EndOfSpeech(audioLength, sent)
  {
    if 0 < audioLength <= 640 * (|sent| + 1) {
      var k := (audioLength - 1) / 640;
      assert k <= |sent| && (k == |sent| <==> 640 * |sent| < audioLength);
    }
  }

  /** Events that send nothing leave what was sent as it is. */
  lemma {:induction false} SameSent(audioLength: nat, before: seq<Event>, e: Event)
    requires !e.Chunk? || !e.ok || SendsNothing(audioLength, before)
    ensures SendTimes(audioLength, before + [e]) == SendTimes(audioLength, before)
  {
    OneMore(Flux, audioLength, before, e);
  }

  predicate SendsNothing(audioLength: nat, before: seq<Event>) { Opened !in before || AllSent(audioLength, before) }

  lemma {:induction false} SameRequest(audioLength: nat, before: seq<Event>, e: Event)
    ensures var now := e == AudioSent(true) && AllSent(audioLength, before);
            Requested(audioLength, before + [e]) == (Requested(audioLength, before) || now)
  {
    OneMore(Flux, audioLength, before, e);
  }

  lemma {:induction false} PendingNext(audioLength: nat, before: seq<Event>, e: Event, fires: Event -> bool)
    ensures Pending(audioLength, before + [e], fires)
            == if Requested(audioLength, before) then Pending(audioLength, before, fires) && !fires(e)
               else Requested(audioLength, before + [e])
    ensures Pending(audioLength, before, fires) ==> Requested(audioLength, before)
  {
    OneMore(Flux, audioLength, before, e);
    if before != [] { PendingNext(audioLength, before[..|before|-1], before[|before|-1], fires); }
  }

  /** An event that neither sends nor fires a control timer leaves all but the words. */
  lemma {:induction false} QuietTells(model: Model, audioLength: nat, before: seq<Event>, e: Event, s: State)
    requires Sent(audioLength, before, s) && Armed(model, audioLength, before, s)
    requires e.Received? || (e.Chunk? && (!e.ok || SendsNothing(audioLength, before)))
    ensures Sent(audioLength, before + [e], s) && Armed(model, audioLength, before + [e], s)
  {
    OneMore(model, audioLength, before, e);
    SameRequest(audioLength, before, e);
    PendingNext(audioLength, before, e, (e: Event) => e.CloseControl?);
    PendingNext(audioLength, before, e, (e: Event) => e.EndControl?);
  }

  lemma {:induction false} RequestedIsSent(audioLength: nat, before: seq<Event>)
    requires Requested(audioLength, before)
    ensures AllSent(audioLength, before)
  {
    var earlier, e := before[..|before|-1], before[|before|-1];
    if Requested(audioLength, earlier) { RequestedIsSent(audioLength, earlier); }
    assert before == earlier + [e];
    SameSent(audioLength, earlier, e);
  }

  /** What a settled session must have kept up to `e`. */
  lemma {:induction false} FinishTells(model: Model, audioLength: nat, before: seq<Event>, e: Event, q: State,
                                       error: Option<string>)
    requires q.settled.None?
    requires var sent := SendTimes(audioLength, before);
             q.messagesSent == |sent| && q.sentBytes == Min(640 * |sent|, audioLength + 12000)
             && q.speechEndAt == EndOfSpeech(audioLength, sent)
    requires WordsOfAll(q.finalParts) == Heard(model, before) + NewWords(model, e)
    requires forall p :: p in q.finalParts ==> Words(p) != []
    requires error == Cause(e, q.finalParts != [])
    requires q.finalTrigger == Trigger(model, Requested(audioLength, before), e)
    requires q.turnEndAt == if EndsTurn(e) then Some(e.now) else None
    ensures Finish(q, error).settled == Some(OutcomeAt(model, audioLength, before, e))
  {
    hide Words, Transcript, Cause, SendTimes, EndOfSpeech, Trigger, Requested;
    TranscriptIsWords(q.finalParts);
    PartsAreHeard(q.finalParts);
  }

  lemma {:induction false} PartsAreHeard(parts: seq<string>)
    requires forall p :: p in parts ==> Words(p) != []
    ensures parts == [] <==> WordsOfAll(parts) == []
  {
    hide Words;
    if parts != [] { assert parts[0] in parts; }
  }

  /** A session that `e` does not settle tells the history with `e`, one that it settles has the outcome of `e`. */
  ghost predicate TellsNext(model: Model, audioLength: nat, before: seq<Event>, e: Event, r: State) {
    if Settles(model, audioLength, before, e) then r.settled == Some(OutcomeAt(model, audioLength, before, e))
    else Tells(model, audioLength, before + [e], r)
  }

  lemma {:induction false} SocketTells(model: Model, audioLength: nat, before: seq<Event>, e: Event, s: State)
    requires Tells(model, audioLength, before, s)
    requires e.Deadline? || e.SocketError? || e.UnexpectedResponse? || e.Closed?
    ensures TellsNext(model, audioLength, before, e, Step(model, audioLength, s, e))
  {
    hide Words, Transcript, SendTimes, EndOfSpeech, Requested, Finish, Figures, Pending, OutcomeAt;
    PartsAreHeard(s.finalParts);
    assert Heard(model, before) + [] == Heard(model, before);
    FinishTells(model, audioLength, before, e, s, Cause(e, s.finalParts != []));
  }

  lemma {:induction false} OpenTells(model: Model, audioLength: nat, before: seq<Event>, s: State)
    requires Tells(model, audioLength, before, s)
    ensures TellsNext(model, audioLength, before, Opened, Step(model, audioLength, s, Opened))
  {
    hide Words, Requested, Pending, SendTimes, EndOfSpeech, AllSent, Finish;
    OneMore(model, audioLength, before, Opened);
    SameSent(audioLength, before, Opened);
    SameRequest(audioLength, before, Opened);
    PendingNext(audioLength, before, Opened, (e: Event) => e.CloseControl?);
    PendingNext(audioLength, before, Opened, (e: Event) => e.EndControl?);
    NoNewWords(model, before, Opened);
    if Requested(audioLength, before) { RequestedIsSent(audioLength, before); }
    if Opened !in before { NotOpen(audioLength, before); }
  }

  lemma {:induction false} NotOpen(audioLength: nat, before: seq<Event>)
    requires Opened !in before
    ensures SendTimes(audioLength, before) == [] && !Requested(audioLength, before)
  {
    if before != [] {
      assert before == before[..|before|-1] + [before[|before|-1]];
      NotOpen(audioLength, before[..|before|-1]);
    }
  }

  lemma {:induction false} SendTells(model: Model, audioLength: nat, before: seq<Event>, now: int, ok: bool, s: State)
    requires Tells(model, audioLength, before, s)
    ensures TellsNext(model, audioLength, before, Chunk(now, ok), Step(model, audioLength, s, Chunk(now, ok)))
  {
    hide Words, Finish, OnChunk, SendTimes, EndOfSpeech, Requested, Pending;
    var e := Chunk(now, ok);
    NoNewWords(model, before, e);
    if Requested(audioLength, before) { RequestedIsSent(audioLength, before); }
    var sends := s.sender.Sending? && s.sender.offset < PayloadLength(audioLength);
    if sends && ok {
      ChunkTells(audioLength, before, now, s);
      SameRequest(audioLength, before, e);
      PendingNext(audioLength, before, e, (e: Event) => e.CloseControl?);
      PendingNext(audioLength, before, e, (e: Event) => e.EndControl?);
      ChunkKeepsRest(audioLength, s, now);
    } else if sends {
      FailedSend(audioLength, s, now);
      FinishTells(model, audioLength, before, e, s.(sender := Over), Some("audio_send_error"));
    } else {
      QuietTells(model, audioLength, before, e, s);
    }
  }

  lemma {:induction false} NoNewWords(model: Model, before: seq<Event>, e: Event)
    requires NewWords(model, e) == []
    ensures Heard(model, before + [e]) == Heard(model, before) == Heard(model, before) + []
  {
    OneMore(model, 0, before, e);
  }

  lemma {:induction false} ChunkKeepsRest(audioLength: nat, s: State, now: int)
    requires s.sender.Sending? && s.sender.offset < PayloadLength(audioLength)
    ensures var r := OnChunk(audioLength, s, s.sender.offset, now, true);
            s == r.(messagesSent := s.messagesSent, sentBytes := s.sentBytes, sender := s.sender,
                    speechEndAt := s.speechEndAt)
  {}

  lemma {:induction false} FailedSend(audioLength: nat, s: State, now: int)
    requires s.sender.Sending? && s.sender.offset < PayloadLength(audioLength)
    ensures OnChunk(audioLength, s, s.sender.offset, now, false)
            == Finish(s.(sender := Over), Some("audio_send_error"))
  {}

  lemma {:induction false} RequestTells(model: Model, audioLength: nat, before: seq<Event>, ok: bool, s: State)
    requires Tells(model, audioLength, before, s)
    ensures TellsNext(model, audioLength, before, AudioSent(ok), Step(model, audioLength, s, AudioSent(ok)))
  {
    hide Words, Finish, SendTimes, EndOfSpeech, Requested, Pending;
    var e := AudioSent(ok);
    OneMore(model, audioLength, before, e);
    NoNewWords(model, before, e);
    SameSent(audioLength, before, e);
    SameRequest(audioLength, before, e);
    PendingNext(audioLength, before, e, (e: Event) => e.CloseControl?);
    PendingNext(audioLength, before, e, (e: Event) => e.EndControl?);
    if Requested(audioLength, before) { RequestedIsSent(audioLength, before); }
    if s.sender.Sending? && s.sender.offset >= PayloadLength(audioLength) && !ok {
      FinishTells(model, audioLength, before, e, s.(sender := Over), Some("control_send_error"));
    }
  }

  lemma {:induction false} TimerTells(model: Model, audioLength: nat, before: seq<Event>, e: Event, s: State)
    requires Tells(model, audioLength, before, s) && (e.CloseControl? || e.EndControl?)
    ensures TellsNext(model, audioLength, before, e, Step(model, audioLength, s, e))
  {
    hide Words, Finish, SendTimes, EndOfSpeech, Requested, Pending;
    OneMore(model, audioLength, before, e);
    NoNewWords(model, before, e);
    SameSent(audioLength, before, e);
    SameRequest(audioLength, before, e);
    PendingNext(audioLength, before, e, (e: Event) => e.CloseControl?);
    PendingNext(audioLength, before, e, (e: Event) => e.EndControl?);
    PartsAreHeard(s.finalParts);
    if Settles(model, audioLength, before, e) {
      FinishTells(model, audioLength, before, e, s, Cause(e, s.finalParts != []));
    }
  }

  lemma {:induction false} MessageTells(model: Model, audioLength: nat, before: seq<Event>, m: Message, now: int,
                                        s: State)
    requires Tells(model, audioLength, before, s)
    ensures TellsNext(model, audioLength, before, Received(m, now), OnMessage(model, s, m, now))
  {
    hide Words, Text, Finish, SendTimes, EndOfSpeech, Requested, Pending, WordsOf;
    var e := Received(m, now);
    OneMore(model, audioLength, before, e);
    QuietTells(model, audioLength, before, e, s);
    assert Heard(model, before + [e]) == Heard(model, before) + NewWords(model, e);
    assert Heard(model, before) + [] == Heard(model, before);
    PartsAreHeard(s.finalParts);
    match m
    case Ignored =>
    case ProviderError(credit) => FinishTells(model, audioLength, before, e, s, Cause(e, s.finalParts != []));
    case EndOfTurn(t) => TurnTells(model, audioLength, before, t, now, s);
    case Results(t, isFinal, speechFinal) =>
      ResultsTell(model, audioLength, before, t, isFinal, speechFinal, now, s);
    case UtteranceEnd =>
      if Settles(model, audioLength, before, e) {
        FinishTells(model, audioLength, before, e, s.(turnEndAt := Some(now), finalTrigger := Some("utterance_end")),
                    None);
      }
  }

  lemma {:induction false} TurnTells(model: Model, audioLength: nat, before: seq<Event>, t: Option<string>, now: int,
                                     s: State)
    requires Tells(model, audioLength, before, s)
    ensures TellsNext(model, audioLength, before, Received(EndOfTurn(t), now), OnMessage(model, s, EndOfTurn(t), now))
  {
    hide Words, Text, Finish, SendTimes, EndOfSpeech, Requested, Pending, WordsOf;
    var e := Received(EndOfTurn(t), now);
    if model.Nova3? {
      NoNewWords(model, before, e);
      QuietTells(model, audioLength, before, e, s);
    } else {
      TextIsWords(t);
      WordsOfMore(s.finalParts, Text(t));
      var q := s.(finalParts := if Text(t) == "" then s.finalParts else s.finalParts + [Text(t)],
                  turnEndAt := Some(now),
                  finalTrigger := if s.finalTrigger.Some? then s.finalTrigger else Some("end_of_turn"));
      FinishTells(model, audioLength, before, e, q, if Text(t) == "" then Some("empty_final") else None);
    }
  }

  lemma {:induction false} ResultsTell(model: Model, audioLength: nat, before: seq<Event>, t: Option<string>,
                                       isFinal: bool, speechFinal: bool, now: int, s: State)
    requires Tells(model, audioLength, before, s)
    ensures TellsNext(model, audioLength, before, Received(Results(t, isFinal, speechFinal), now),
                      OnMessage(model, s, Results(t, isFinal, speechFinal), now))
  {
    hide Words, Text, Finish, SendTimes, EndOfSpeech, Requested, Pending, WordsOf, OutcomeAt;
    var e := Received(Results(t, isFinal, speechFinal), now);
    OneMore(model, audioLength, before, e);
    QuietTells(model, audioLength, before, e, s);
    TextIsWords(t);
    WordsOfMore(s.finalParts, Text(t));
    PartsAreHeard(s.finalParts);
    assert Heard(model, before + [e]) == Heard(model, before) + NewWords(model, e);
    assert Heard(model, before) + [] == Heard(model, before);
    if Settles(model, audioLength, before, e) {
      ResultsSettle(model, audioLength, before, t, speechFinal, now, s);
    }
  }

  lemma {:induction false} ResultsSettle(model: Model, audioLength: nat, before: seq<Event>, t: Option<string>,
                                         speechFinal: bool, now: int, s: State)
    requires Tells(model, audioLength, before, s)
    requires Settles(model, audioLength, before, Received(Results(t, true, speechFinal), now))
    ensures var e := Received(Results(t, true, speechFinal), now);
            OnMessage(model, s, e.message, now).settled == Some(OutcomeAt(model, audioLength, before, e))
  {
    hide Words, Text, Finish, SendTimes, EndOfSpeech, Requested, Pending, WordsOf, OutcomeAt, Heard;
    var e := Received(Results(t, true, speechFinal), now);
    TextIsWords(t);
    WordsOfMore(s.finalParts, Text(t));
    assert Heard(model, before) + [] == Heard(model, before);
    var p := if Text(t) != "" then s.(finalParts := s.finalParts + [Text(t)]) else s;
    if Text(t) != "" && s.finalizeSent {
      FinishTells(model, audioLength, before, e, p.(turnEndAt := Some(now)), None);
    } else {
      FinishTells(model, audioLength, before, e, p.(turnEndAt := Some(now), finalTrigger := Some("speech_final")),
                  if p.finalParts == [] then Some("empty_final") else None);
    }
  }

  lemma {:induction false} StepTells(model: Model, audioLength: nat, before: seq<Event>, e: Event, s: State)
    requires Tells(model, audioLength, before, s)
    ensures TellsNext(model, audioLength, before, e, Step(model, audioLength, s, e))
  {
    hide TellsNext, Tells, Step;
    match e
    case Opened => OpenTells(model, audioLength, before, s);
    case Chunk(now, ok) => SendTells(model, audioLength, before, now, ok, s);
    case AudioSent(ok) => RequestTells(model, audioLength, before, ok, s);
    case CloseControl(_) => TimerTells(model, audioLength, before, e, s);
    case EndControl => TimerTells(model, audioLength, before, e, s);
    case Received(m, now) =>
      MessageTells(model, audioLength, before, m, now, s);
      StepOfMessage(model, audioLength, s, m, now);
    case _ => SocketTells(model, audioLength, before, e, s);
  }

  lemma {:induction false} StepOfMessage(model: Model, audioLength: nat, s: State, m: Message, now: int)
    ensures Step(model, audioLength, s, Received(m, now)) == OnMessage(model, s, m, now)
  {}

  /**
   * Main result: for either model and every order of events, the session has exactly the outcome that its events
   * call for, every field of it, and none before one of them settles it.
   */
  lemma {:induction false} OutcomeIsExpected(model: Model, audioLength: nat, events: seq<Event>)
    ensures Session(model, audioLength, events).settled == Expected(model, audioLength, events)
    ensures Expected(model, audioLength, events).None?
            ==> Tells(model, audioLength, events, Session(model, audioLength, events))
  {
    hide Step, Tells, Settles, OutcomeAt;
    if events == [] {
      NothingTold(model, audioLength);
    } else {
      var before, e := events[..|events|-1], events[|events|-1];
      var s := Session(model, audioLength, before);
      OutcomeIsExpected(model, audioLength, before);
      assert before + [e] == events;
      if s.settled.Some? { StepKeepsOutcome(model, audioLength, s, e); } else {
        StepTells(model, audioLength, before, e, s);
        TellsIsOpen(model, audioLength, events, Step(model, audioLength, s, e));
      }
    }
  }

  lemma {:induction false} TellsIsOpen(model: Model, audioLength: nat, events: seq<Event>, s: State)
    ensures Tells(model, audioLength, events, s) ==> s.settled.None?
  {}
}
