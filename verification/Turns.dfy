/**
 * Whose turn it was (eot_pauses.py): agent segments grouped into utterances, and
 * each utterance given the caller segments that precede it.
 */
module Turns {
  import opened Wrappers
  import opened Segments

  /** The caller speaks after `end` begins to pass and before `start`. */
  predicate CallerBetween(caller: seq<Segment>, end: int, start: int) {
    exists k :: 0 <= k < |caller| && caller[k].start < start && caller[k].end > end
  }

  predicate Joins(caller: seq<Segment>, u: Segment, s: Segment) {
    s.start - u.end < 900 && !CallerBetween(caller, u.end, s.start)
  }

  function Utterances(agent: seq<Segment>, caller: seq<Segment>): seq<Segment> {
    if agent == [] then []
    else
      var utts, s := Utterances(Front(agent), caller), Last(agent);
      if utts != [] && Joins(caller, Last(utts), s) then Front(utts) + [Segment(Last(utts).start, s.end)]
      else utts + [s]
  }

  method GroupUtterances(agent: seq<Segment>, caller: seq<Segment>) returns (utts: seq<Segment>)
    ensures utts == Utterances(agent, caller)
  {
    utts := [];
    for i := 0 to |agent|
      invariant utts == Utterances(agent[..i], caller)
    {
      assert Front(agent[..i+1]) == agent[..i];
      if utts != [] && Joins(caller, Last(utts), agent[i]) {
        utts := utts[|utts|-1 := Segment(Last(utts).start, agent[i].end)];
      } else {
        utts := utts + [agent[i]];
      }
    }
    assert agent[..|agent|] == agent;
  }

  // ----- windows

  predicate InWindow(c: Segment, previousEnd: int, begin: int) { c.start >= previousEnd - 100 && c.end <= begin + 60 }

  /** The segments that satisfy `f`, in order. */
  function Pick(segs: seq<Segment>, f: Segment -> bool): seq<Segment> {
    if segs == [] then [] else Pick(Front(segs), f) + (if f(Last(segs)) then [Last(segs)] else [])
  }

  function Window(caller: seq<Segment>, previousEnd: int, begin: int): seq<Segment> {
    Pick(caller, c => InWindow(c, previousEnd, begin))
  }

  /** The end of the utterance before `k`, or the start of the call. */
  function PreviousEnd(utts: seq<Segment>, k: nat): int
    requires k < |utts|
  { if k == 0 then 0 else utts[k-1].end }

  function TurnWindow(utts: seq<Segment>, caller: seq<Segment>, k: nat): seq<Segment>
    requires k < |utts|
  { Window(caller, PreviousEnd(utts, k), utts[k].start) }

  /** The caller begins again while the agent speaks, in the first two and a half seconds. */
  predicate Interrupts(c: Segment, u: Segment) { u.start + 60 < c.start < u.end && c.start < u.start + 2500 }

  /** The caller speaks on over the beginning of the utterance. */
  predicate Spans(c: Segment, u: Segment) { c.start < u.start - 60 && c.end > u.start + 200 }

  datatype Row = Row(begin: int, segs: seq<Segment>, agentEnd: int, gap: int, speech: int, pauses: seq<int>,
                     over: bool, overStart: Option<int>, spanning: bool)

  function Pauses(win: seq<Segment>): seq<int> {
    if |win| <= 1 then [] else Pauses(Front(win)) + [Last(win).start - Last(Front(win)).end]
  }

  function RowOf(u: Segment, win: seq<Segment>, caller: seq<Segment>): Row
    requires win != []
  {
    var over := Pick(caller, c => Interrupts(c, u));
    Row(u.start, win, u.end, u.start - Last(win).end, Last(win).end - win[0].start, Pauses(win),
        over != [], if over != [] then Some(over[0].start - u.start) else None, Pick(caller, c => Spans(c, u)) != [])
  }

  /** One row for each utterance that some caller segment precedes. */
  function Rows(utts: seq<Segment>, caller: seq<Segment>, n: nat): seq<Row>
    requires n <= |utts|
  {
    if n == 0 then []
    else
      var win := TurnWindow(utts, caller, n - 1);
      Rows(utts, caller, n - 1) + (if win != [] then [RowOf(utts[n-1], win, caller)] else [])
  }

  method Select(segs: seq<Segment>, f: Segment -> bool) returns (picked: seq<Segment>)
    ensures picked == Pick(segs, f)
  {
    picked := [];
    for i := 0 to |segs|
      invariant picked == Pick(segs[..i], f)
    {
      assert Front(segs[..i+1]) == segs[..i];
      if f(segs[i]) { picked := picked + [segs[i]]; }
    }
    assert segs[..|segs|] == segs;
  }

  method ListPauses(win: seq<Segment>) returns (pauses: seq<int>)
    ensures pauses == Pauses(win)
  {
    pauses := [];
    if win == [] { return; }
    for i := 0 to |win| - 1
      invariant pauses == Pauses(win[..i+1])
    {
      assert Front(win[..i+2]) == win[..i+1];
      pauses := pauses + [win[i+1].start - win[i].end];
    }
    assert win[..|win|-1+1] == win;
  }

  /** What is reported about one utterance and its window. */
  method Report(u: Segment, win: seq<Segment>, caller: seq<Segment>) returns (row: Row)
    requires win != []
    ensures row == RowOf(u, win, caller)
  {
    hide Pick, Interrupts, Spans, Pauses;
    var pauses := ListPauses(win);
    var over := Select(caller, c => Interrupts(c, u));
    var spanning := Select(caller, c => Spans(c, u));
    var e := Last(win).end;
    var overStart := if over != [] then Some(over[0].start - u.start) else None;
    row := Row(u.start, win, u.end, u.start - e, e - win[0].start, pauses, over != [], overStart, spanning != []);
  }

  method Analyse(callerMask: Mask, agentMask: Mask) returns (caller: seq<Segment>, utts: seq<Segment>, rows: seq<Row>)
    ensures caller == SpeechSegments(callerMask, 120, 100)
    ensures utts == Utterances(SpeechSegments(agentMask, 120, 150), caller)
    ensures rows == Rows(utts, caller, |utts|)
  {
    hide SpeechSegments, Utterances, Pick, InWindow, RowOf;
    caller := FindSegments(callerMask, 120, 100);
    var agent := FindSegments(agentMask, 120, 150);
    utts := GroupUtterances(agent, caller);
    rows := [];
    var previousEnd := 0;
    for n := 0 to |utts|
      invariant rows == Rows(utts, caller, n) && previousEnd == if n == 0 then 0 else utts[n-1].end
    {
      var u := utts[n];
      var win := Select(caller, c => InWindow(c, previousEnd, u.start));
      if win != [] {
        var row := Report(u, win, caller);
        rows := rows + [row];
      }
      previousEnd := u.end;
    }
  }

  // ----- utterances

  /** Utterances keep the agent's segments in order and at least 150 ms long, and are apart for a reason. */
  ghost predicate Grouped(utts: seq<Segment>, caller: seq<Segment>) {
    && Spaced(utts, 150, 120)
    && forall k :: 0 <= k < |utts| - 1 ==> Apart(caller, utts[k], utts[k+1])
  }

  /** A pause of 900 ms, or the caller's voice in between. */
  predicate Apart(caller: seq<Segment>, u: Segment, v: Segment) {
    v.start - u.end >= 900 || CallerBetween(caller, u.end, v.start)
  }

  lemma {:induction false} UtterancesGrouped(agent: seq<Segment>, caller: seq<Segment>)
    requires Spaced(agent, 150, 120)
    ensures Grouped(Utterances(agent, caller), caller)
    ensures agent != [] ==> Utterances(agent, caller) != [] && Last(Utterances(agent, caller)).end == Last(agent).end
  {
    hide CallerBetween;
    if agent != [] {
      UtterancesGrouped(Front(agent), caller);
      var utts := Utterances(Front(agent), caller);
      if |agent| > 1 {
        assert agent[|agent|-2].end < agent[|agent|-1].start;
        assert Last(utts).end == agent[|agent|-2].end;
        AddUtterance(utts, Last(agent), caller);
      }
    }
  }

  lemma {:induction false} AddUtterance(utts: seq<Segment>, s: Segment, caller: seq<Segment>)
    requires utts != [] && Grouped(utts, caller) && s.end - s.start >= 150 && s.start - Last(utts).end >= 120
    ensures Joins(caller, Last(utts), s) ==> Grouped(Front(utts) + [Segment(Last(utts).start, s.end)], caller)
    ensures !Joins(caller, Last(utts), s) ==> Grouped(utts + [s], caller)
  {
    hide CallerBetween;
    Widen(utts, s.end, caller);
    Append(utts, s);
  }

  lemma {:induction false} Append(utts: seq<Segment>, s: Segment)
    requires utts != [] && Spaced(utts, 150, 120) && s.end - s.start >= 150 && s.start - Last(utts).end >= 120
    ensures Spaced(utts + [s], 150, 120)
  {}

  lemma {:induction false} Widen(utts: seq<Segment>, end: int, caller: seq<Segment>)
    requires utts != [] && Grouped(utts, caller) && Last(utts).end <= end
    ensures Grouped(Front(utts) + [Segment(Last(utts).start, end)], caller)
  {
    hide CallerBetween;
    var wide := Front(utts) + [Segment(Last(utts).start, end)];
    assert forall k :: 0 <= k < |utts| ==>
      wide[k].start == utts[k].start && (k < |utts| - 1 ==> wide[k].end == utts[k].end);
    forall k | 0 <= k < |wide| - 1 ensures Apart(caller, wide[k], wide[k+1]) {
      assert Apart(caller, utts[k], utts[k+1]);
    }
  }

  lemma {:induction false} UtteranceStarts(agent: seq<Segment>, caller: seq<Segment>, k: nat)
    requires k < |Utterances(agent, caller)|
    ensures StartsAt(agent, Utterances(agent, caller)[k].start)
  {
    hide CallerBetween;
    var utts := Utterances(Front(agent), caller);
    assert agent[|agent|-1] == Last(agent);
    if k < |utts| {
      UtteranceStarts(Front(agent), caller, k);
      var i :| 0 <= i < |Front(agent)| && Front(agent)[i].start == utts[k].start;
      assert agent[i] == Front(agent)[i];
    }
  }

  /**
   * Two neighbouring agent segments are in different utterances exactly when a pause or the caller keeps them
   * apart.
   */
  lemma {:induction false} SplitIffApart(agent: seq<Segment>, caller: seq<Segment>, k: nat)
    requires Spaced(agent, 150, 120) && k + 1 < |agent|
    ensures StartsAt(Utterances(agent, caller), agent[k+1].start)
            <==> agent[k+1].start - agent[k].end >= 900
                 || exists c :: c in caller && c.start < agent[k+1].start && c.end > agent[k].end
  {
    ApartIff(caller, agent[k], agent[k+1]);
    SplitIff(agent, caller, k);
  }

  lemma {:induction false} SplitIff(agent: seq<Segment>, caller: seq<Segment>, k: nat)
    requires Spaced(agent, 150, 120) && k + 1 < |agent|
    ensures StartsAt(Utterances(agent, caller), agent[k+1].start) <==> Apart(caller, agent[k], agent[k+1])
  {
    hide Apart, Joins;
    var front, s := Front(agent), Last(agent);
    var utts, r := Utterances(front, caller), Utterances(agent, caller);
    UtterancesGrouped(front, caller);
    JoinsIff(caller, Last(utts), Last(front), s);
    SameStarts(utts, s, agent[k+1].start);
    if k + 2 < |agent| {
      SplitIff(front, caller, k);
      assert agent[k+1].start < s.start;
    } else {
      forall i: nat | i < |utts| ensures utts[i].start != s.start {
        UtteranceStarts(front, caller, i);
        var j :| 0 <= j < |front| && front[j].start == utts[i].start;
        assert front[j] == agent[j];
      }
    }
  }

  lemma {:induction false} ApartIff(caller: seq<Segment>, u: Segment, v: Segment)
    ensures Apart(caller, u, v)
            <==> v.start - u.end >= 900 || exists c :: c in caller && c.start < v.start && c.end > u.end
  {}

  lemma {:induction false} JoinsIff(caller: seq<Segment>, u: Segment, a: Segment, s: Segment)
    requires u.end == a.end
    ensures Joins(caller, u, s) <==> !Apart(caller, a, s)
  {}

  /** Extending the last utterance keeps the starts; appending one adds its own. */
  lemma {:induction false} SameStarts(utts: seq<Segment>, s: Segment, x: int)
    requires utts != []
    ensures StartsAt(Front(utts) + [Segment(Last(utts).start, s.end)], x) <==> StartsAt(utts, x)
    ensures StartsAt(utts + [s], x) <==> StartsAt(utts, x) || s.start == x
  {
    var wide, more := Front(utts) + [Segment(Last(utts).start, s.end)], utts + [s];
    assert forall i :: 0 <= i < |utts| ==> wide[i].start == utts[i].start && more[i] == utts[i];
    assert more[|utts|] == s;
  }

  /** The agent segments from `i` to `j` that follow each other without being apart, but are apart from the others. */
  ghost predicate Together(agent: seq<Segment>, caller: seq<Segment>, i: nat, j: nat) {
    && i <= j < |agent| && (forall m :: i <= m < j ==> !Apart(caller, agent[m], agent[m+1]))
    && (i > 0 ==> Apart(caller, agent[i-1], agent[i])) && (j + 1 < |agent| ==> Apart(caller, agent[j], agent[j+1]))
  }

  /** Main result: each utterance runs over such a group of segments, from the first of them to the last. */
  lemma {:induction false} UtteranceIs(agent: seq<Segment>, caller: seq<Segment>, k: nat) returns (i: nat, j: nat)
    requires Spaced(agent, 150, 120) && k < |Utterances(agent, caller)|
    ensures Together(agent, caller, i, j) && Utterances(agent, caller)[k] == Segment(agent[i].start, agent[j].end)
    ensures (k == 0 <==> i == 0) && (k == |Utterances(agent, caller)| - 1 <==> j == |agent| - 1)
  {
    hide Apart, Joins, CallerBetween, Spaced;
    var n, front, s := |agent| - 1, Front(agent), Last(agent);
    var utts := Utterances(front, caller);
    FrontSpaced(agent);
    UtterancesGrouped(front, caller);
    assert forall m :: 0 <= m < n ==> front[m] == agent[m];
    if utts != [] { JoinsIff(caller, Last(utts), Last(front), s); }
    if k < |utts| {
      i, j := UtteranceIs(front, caller, k);
      if k == |utts| - 1 && Joins(caller, Last(utts), s) { j := n; }
    } else {
      i, j := n, n;
    }
  }

  lemma {:induction false} FrontSpaced(agent: seq<Segment>)
    requires Spaced(agent, 150, 120) && agent != []
    ensures Spaced(Front(agent), 150, 120)
  {}

  // ----- attribution

  lemma {:induction false} WindowIff(caller: seq<Segment>, previousEnd: int, begin: int, c: Segment)
    ensures c in Window(caller, previousEnd, begin) <==> c in caller && InWindow(c, previousEnd, begin)
  {
    PickIff(caller, c => InWindow(c, previousEnd, begin), c);
  }

  lemma {:induction false} PickIff(segs: seq<Segment>, f: Segment -> bool, c: Segment)
    ensures c in Pick(segs, f) <==> c in segs && f(c)
  {
    if segs != [] { PickIff(Front(segs), f, c); }
  }

  /** The first segment picked from an ordered list is the earliest that satisfies `f`. */
  lemma {:induction false} PickFirst(segs: seq<Segment>, f: Segment -> bool)
    requires Spaced(segs, 100, 120) && Pick(segs, f) != []
    ensures forall c :: c in segs && f(c) ==> Pick(segs, f)[0].start <= c.start
  {
    hide Pick;
    PickUnfold(segs, f);
    var front, picked := Front(segs), Pick(segs, f);
    if Pick(front, f) != [] {
      PickFirst(front, f);
      assert picked[0] == Pick(front, f)[0];
      PickIff(front, f, picked[0]);
      EarlierStart(segs, picked[0]);
    } else {
      forall c | c in segs && f(c) ensures c == picked[0] { PickIff(front, f, c); }
    }
  }

  lemma {:induction false} EarlierStart(segs: seq<Segment>, s: Segment)
    requires Spaced(segs, 100, 120) && segs != [] && s in Front(segs)
    ensures s.start <= Last(segs).start
  {
    var i :| 0 <= i < |segs| - 1 && Front(segs)[i] == s;
    assert segs[i] == s && segs[i].start <= segs[|segs|-1].start;
  }

  lemma {:induction false} PickUnfold(segs: seq<Segment>, f: Segment -> bool)
    ensures Pick(segs, f) == if segs == [] then []
            else Pick(Front(segs), f) + (if f(Last(segs)) then [Last(segs)] else [])
  {}

  /** The row says whether and when the caller first breaks in, and whether the caller speaks on over the beginning. */
  lemma {:induction false} OverlapsAreFlagged(caller: seq<Segment>, win: seq<Segment>, u: Segment)
    requires Spaced(caller, 100, 120) && win != []
    ensures var row := RowOf(u, win, caller);
            && (row.over <==> exists c :: c in caller && Interrupts(c, u))
            && (row.over <==> row.overStart.Some?)
            && (row.over ==> 60 < row.overStart.value < 2500)
            && (row.over ==> forall c :: c in caller && Interrupts(c, u) ==> u.start + row.overStart.value <= c.start)
            && (row.spanning <==> exists c :: c in caller && Spans(c, u))
  {
    hide Interrupts, Spans, Pick;
    var over, spanning := Pick(caller, c => Interrupts(c, u)), Pick(caller, c => Spans(c, u));
    forall c ensures c in over <==> c in caller && Interrupts(c, u) { PickIff(caller, c => Interrupts(c, u), c); }
    forall c ensures c in spanning <==> c in caller && Spans(c, u) { PickIff(caller, c => Spans(c, u), c); }
    if over != [] {
      PickFirst(caller, c => Interrupts(c, u));
      assert over[0] in over;
      InterruptsLate(over[0], u);
    }
    if spanning != [] { assert spanning[0] in spanning; }
  }

  lemma {:induction false} InterruptsLate(c: Segment, u: Segment)
    requires Interrupts(c, u)
    ensures 60 < c.start - u.start < 2500
  {}

  /** No segment that breaks in or speaks on is counted as the turn that the utterance answers. */
  lemma {:induction false} OverlapsAreNoTurn(caller: seq<Segment>, previousEnd: int, u: Segment, c: Segment)
    requires Spaced(caller, 100, 120) && c in Window(caller, previousEnd, u.start)
    ensures !Interrupts(c, u) && !Spans(c, u)
  {
    WindowIff(caller, previousEnd, u.start, c);
    assert c.end - c.start >= 100;
  }

  /** No caller segment is given to two utterances, whatever the two masks were. */
  lemma {:induction false} NoSegmentTwice(callerMask: Mask, agentMask: Mask, j: nat, k: nat, c: Segment)
    requires var caller := SpeechSegments(callerMask, 120, 100);
             var utts := Utterances(SpeechSegments(agentMask, 120, 150), caller);
             j < k < |utts| && c in TurnWindow(utts, caller, j)
    ensures var caller := SpeechSegments(callerMask, 120, 100);
            var utts := Utterances(SpeechSegments(agentMask, 120, 150), caller);
            c !in TurnWindow(utts, caller, k)
  {
    hide SpeechSegments, Utterances, Window;
    var caller, agent := SpeechSegments(callerMask, 120, 100), SpeechSegments(agentMask, 120, 150);
    var utts := Utterances(agent, caller);
    SegmentsSpaced(callerMask, 120, 100);
    SegmentsSpaced(agentMask, 120, 150);
    UtterancesGrouped(agent, caller);
    WindowIff(caller, PreviousEnd(utts, j), utts[j].start, c);
    WindowIff(caller, PreviousEnd(utts, k), utts[k].start, c);
    assert c.end - c.start >= 100;
    assert utts[j].end - utts[j].start >= 150;
    assert utts[j].end <= utts[k-1].end;
  }

  /** The caller speaks while `u` lasts: past its beginning, and from before its end, up to the tolerances. */
  predicate During(c: Segment, u: Segment) { c.start < u.end - 100 && c.end > u.start + 60 }

  ghost predicate HasTurn(utts: seq<Segment>, caller: seq<Segment>, c: Segment) {
    exists k :: 0 <= k < |utts| && c in TurnWindow(utts, caller, k)
  }

  /** The first utterance that begins when `c` is over, or at most 60 ms before. */
  function Answer(utts: seq<Segment>, c: Segment): (k: nat)
    ensures k <= |utts| && (forall j :: 0 <= j < k ==> c.end > utts[j].start + 60)
    ensures k < |utts| ==> c.end <= utts[k].start + 60
  {
    if utts == [] || c.end <= utts[0].start + 60 then 0
    else
      var k := Answer(utts[1..], c);
      assert forall j :: 0 < j < |utts| ==> utts[j] == utts[1..][j-1];
      k + 1
  }

  /** A segment can only have its turn with the first utterance that follows it. */
  lemma {:induction false} TurnIsAnswer(utts: seq<Segment>, caller: seq<Segment>, c: Segment)
    requires Spaced(utts, 150, 120) && c in caller && c.start >= 0
    ensures var k := Answer(utts, c);
            HasTurn(utts, caller, c) <==> k < |utts| && c in TurnWindow(utts, caller, k)
  {
    hide TurnWindow, Answer;
    var k := Answer(utts, c);
    if n :| 0 <= n < |utts| && c in TurnWindow(utts, caller, n) {
      TurnIff(utts, caller, n, c);
      TurnIff(utts, caller, k, c);
      assert k <= n;
      if 0 < k < n { assert utts[k-1].end < utts[n-1].end; }
    }
  }

  lemma {:induction false} TurnIff(utts: seq<Segment>, caller: seq<Segment>, k: nat, c: Segment)
    requires k < |utts|
    ensures c in TurnWindow(utts, caller, k) <==> c in caller && InWindow(c, PreviousEnd(utts, k), utts[k].start)
  {
    WindowIff(caller, PreviousEnd(utts, k), utts[k].start, c);
  }

  /** A segment has no turn exactly when no utterance follows it, or it was spoken during one. */
  lemma {:induction false} NoTurnIff(utts: seq<Segment>, caller: seq<Segment>, c: Segment)
    requires Spaced(utts, 150, 120) && c in caller && c.start >= 0
    ensures !HasTurn(utts, caller, c)
            <==> (forall u :: u in utts ==> c.end > u.start + 60) || (exists u :: u in utts && During(c, u))
  {
    hide TurnWindow, HasTurn, Answer;
    var k := Answer(utts, c);
    TurnIsAnswer(utts, caller, c);
    if k < |utts| {
      TurnIff(utts, caller, k, c);
      assert utts[k] in utts;
      if k > 0 { assert utts[k-1] in utts; }
      forall u | u in utts && During(c, u) ensures k > 0 && During(c, utts[k-1]) { EarlierEnds(utts, k, c, u); }
    } else {
      forall u | u in utts ensures c.end > u.start + 60 {
        var j :| 0 <= j < |utts| && utts[j] == u;
      }
    }
  }

  lemma {:induction false} EarlierEnds(utts: seq<Segment>, k: nat, c: Segment, u: Segment)
    requires Spaced(utts, 150, 120) && k < |utts| && c.end <= utts[k].start + 60 && u in utts && During(c, u)
    requires forall j :: 0 <= j < k ==> c.end > utts[j].start + 60
    ensures k > 0 && During(c, utts[k-1])
  {
    var m :| 0 <= m < |utts| && utts[m] == u;
    assert forall j :: k < j < |utts| ==> utts[k].start < utts[j].start;
    if m < k - 1 { assert utts[m].end < utts[k-1].end; }
  }

  /** The same for any two masks: with `NoSegmentTwice`, every other segment has exactly one turn. */
  lemma {:induction false} SegmentWithoutTurn(callerMask: Mask, agentMask: Mask, c: Segment)
    requires c in SpeechSegments(callerMask, 120, 100)
    ensures var caller := SpeechSegments(callerMask, 120, 100);
            var utts := Utterances(SpeechSegments(agentMask, 120, 150), caller);
            !HasTurn(utts, caller, c)
            <==> (forall u :: u in utts ==> c.end > u.start + 60) || (exists u :: u in utts && During(c, u))
  {
    hide SpeechSegments, Utterances, HasTurn, During;
    var caller, agent := SpeechSegments(callerMask, 120, 100), SpeechSegments(agentMask, 120, 150);
    SegmentsStartLate(callerMask, 120, 100, c);
    SegmentsSpaced(agentMask, 120, 150);
    UtterancesGrouped(agent, caller);
    NoTurnIff(Utterances(agent, caller), caller, c);
  }

  /** The tolerances do overlap for shorter segments: a 20 ms click can precede two 40 ms utterances. */
  lemma {:induction false} ToleranceNeedsLength() returns (caller: seq<Segment>, utts: seq<Segment>)
    ensures |caller| == 1 && |utts| == 2 && Spaced(caller, 20, 120) && Spaced(utts, 40, 120)
    ensures caller[0] in TurnWindow(utts, caller, 0) && caller[0] in TurnWindow(utts, caller, 1)
  {
    caller, utts := [Segment(120, 140)], [Segment(100, 140), Segment(1200, 1240)];
    WindowIff(caller, 0, 100, caller[0]);
    WindowIff(caller, 140, 1200, caller[0]);
  }

  /** The segments of a window are neighbours: none of the caller's is passed over between two of them. */
  lemma {:induction false} WindowIsSlice(caller: seq<Segment>, previousEnd: int, begin: int) returns (i: nat, j: nat)
    requires Spaced(caller, 100, 120)
    ensures i <= j <= |caller| && Window(caller, previousEnd, begin) == caller[i..j]
    ensures i < j < |caller| ==> caller[j].end > begin + 60
  {
    if caller == [] {
      i, j := 0, 0;
    } else {
      var n := |caller| - 1;
      i, j := WindowIsSlice(Front(caller), previousEnd, begin);
      if !InWindow(caller[n], previousEnd, begin) {
        StartInWindow(caller, previousEnd, begin, i, j);
      } else if i == j {
        i, j := n, n + 1;
      } else {
        assert j == n;
        assert Front(caller)[i..j] + [caller[n]] == caller[i..n+1];
        j := n + 1;
      }
    }
  }

  lemma {:induction false} StartInWindow(caller: seq<Segment>, previousEnd: int, begin: int, i: nat, j: nat)
    requires Spaced(caller, 100, 120) && caller != [] && i <= j < |caller|
    requires Window(Front(caller), previousEnd, begin) == Front(caller)[i..j]
    ensures i < j && !InWindow(Last(caller), previousEnd, begin) ==> Last(caller).end > begin + 60
    ensures Front(caller)[i..j] == caller[i..j]
  {
    if i < j {
      assert Front(caller)[i..j][0] == caller[i];
      WindowIff(Front(caller), previousEnd, begin, caller[i]);
    }
  }

  lemma {:induction false} PausesAreGaps(win: seq<Segment>, k: nat)
    requires k < |Pauses(win)|
    ensures |Pauses(win)| == |win| - 1 && Pauses(win)[k] == win[k+1].start - win[k].end
  {
    PausesLength(win);
    if k < |win| - 2 {
      PausesLength(Front(win));
      PausesAreGaps(Front(win), k);
    }
  }

  lemma {:induction false} PausesLength(win: seq<Segment>)
    ensures |Pauses(win)| == if win == [] then 0 else |win| - 1
  {
    if |win| > 1 { PausesLength(Front(win)); }
  }

  /**
   * A row's times make sense: speech of 100 ms or more, ended at most 60 ms into the answer, pauses of 120 ms
   * or more.
   */
  lemma {:induction false} RowIsSound(caller: seq<Segment>, previousEnd: int, u: Segment)
    requires Spaced(caller, 100, 120) && Window(caller, previousEnd, u.start) != []
    ensures var row := RowOf(u, Window(caller, previousEnd, u.start), caller);
            row.gap >= -60 && row.speech >= 100 && |row.pauses| == |row.segs| - 1
            && forall k :: 0 <= k < |row.pauses| ==> row.pauses[k] >= 120
  {
    var win := Window(caller, previousEnd, u.start);
    var i, j := WindowIsSlice(caller, previousEnd, u.start);
    WindowIff(caller, previousEnd, u.start, Last(win));
    PausesLength(win);
    assert win[0] == caller[i] && Last(win) == caller[j-1];
    forall k | 0 <= k < |Pauses(win)| ensures Pauses(win)[k] >= 120 {
      PausesAreGaps(win, k);
      assert win[k] == caller[i+k] && win[k+1] == caller[i+k+1];
    }
  }

  // ----- the rows

  /** The caller segments that an utterance from `begin` on answers. */
  predicate Precedes(c: Segment, previousEnd: int, begin: int) {
    previousEnd - 100 <= c.start && c.end <= begin + 60
  }

  /** `row` says of `u` which segments it answers, how long after the last of them, and how they were spoken. */
  ghost predicate Answers(row: Row, caller: seq<Segment>, previousEnd: int, u: Segment) {
    var end := u.start - row.gap;
    && row.begin == u.start && row.agentEnd == u.end
    && (forall c :: c in row.segs <==> c in caller && Precedes(c, previousEnd, u.start))
    && (forall c :: c in row.segs ==> end - row.speech <= c.start && c.end <= end)
    && (exists c :: c in row.segs && c.end == end) && (exists c :: c in row.segs && c.start == end - row.speech)
  }

  /** `t` follows `s` after `pause`, with no other segment of the caller's between. */
  ghost predicate Follows(s: Segment, t: Segment, pause: int, caller: seq<Segment>) {
    s.end < t.start == s.end + pause && forall c :: c in caller ==> c.end <= s.end || t.start <= c.start
  }

  /** The pauses are the gaps between segments that follow each other. */
  ghost predicate PausesBetween(row: Row, caller: seq<Segment>) {
    && |row.pauses| == |row.segs| - 1
    && forall k :: 0 <= k < |row.pauses| ==> Follows(row.segs[k], row.segs[k+1], row.pauses[k], caller)
  }

  /** Whether the caller breaks in or speaks on over the beginning, and how late the first to break in does. */
  ghost predicate OverlapsSaid(row: Row, caller: seq<Segment>, u: Segment) {
    && (row.over <==> exists c :: c in caller && BreaksIn(c, u))
    && (row.over <==> row.overStart.Some?)
    && (row.over ==> (exists c :: c in caller && BreaksIn(c, u) && c.start == u.start + row.overStart.value)
                     && forall c :: c in caller && BreaksIn(c, u) ==> u.start + row.overStart.value <= c.start)
    && (row.spanning <==> exists c :: c in caller && c.start < u.start - 60 && u.start + 200 < c.end)
  }

  predicate BreaksIn(c: Segment, u: Segment) { u.start + 60 < c.start < u.end && c.start - u.start < 2500 }

  lemma {:induction false} BreaksInIff(c: Segment, u: Segment)
    ensures BreaksIn(c, u) <==> Interrupts(c, u)
  {}

  lemma {:induction false} RowAnswers(caller: seq<Segment>, previousEnd: int, u: Segment)
    requires Spaced(caller, 100, 120) && Window(caller, previousEnd, u.start) != []
    ensures Answers(RowOf(u, Window(caller, previousEnd, u.start), caller), caller, previousEnd, u)
  {
    hide Pauses, Pick;
    var win := Window(caller, previousEnd, u.start);
    var i, j := WindowIsSlice(caller, previousEnd, u.start);
    forall c ensures c in win <==> c in caller && Precedes(c, previousEnd, u.start) {
      WindowIff(caller, previousEnd, u.start, c);
    }
    assert win[0] in win && Last(win) in win;
    forall c | c in win ensures win[0].start <= c.start && c.end <= Last(win).end {
      var k :| 0 <= k < |win| && win[k] == c;
      assert win[k] == caller[i+k] && win[0] == caller[i] && Last(win) == caller[j-1];
      InOrder(caller, i, i + k);
      InOrder(caller, i + k, j - 1);
    }
  }

  lemma {:induction false} InOrder(segs: seq<Segment>, i: nat, j: nat)
    requires Spaced(segs, 100, 120) && i <= j < |segs|
    ensures segs[i].start <= segs[j].start && segs[i].end <= segs[j].end
  {}

  lemma {:induction false} RowPauses(caller: seq<Segment>, previousEnd: int, u: Segment)
    requires Spaced(caller, 100, 120) && Window(caller, previousEnd, u.start) != []
    ensures PausesBetween(RowOf(u, Window(caller, previousEnd, u.start), caller), caller)
  {
    hide Pick, Pauses;
    var win := Window(caller, previousEnd, u.start);
    var i, j := WindowIsSlice(caller, previousEnd, u.start);
    PausesLength(win);
    forall k | 0 <= k < |win| - 1 ensures Follows(win[k], win[k+1], Pauses(win)[k], caller) {
      PausesAreGaps(win, k);
      assert win[k] == caller[i+k] && win[k+1] == caller[i+k+1];
      forall c | c in caller ensures c.end <= win[k].end || win[k+1].start <= c.start {
        var n :| 0 <= n < |caller| && caller[n] == c;
        if n <= i + k { InOrder(caller, n, i + k); } else { InOrder(caller, i + k + 1, n); }
      }
    }
  }

  lemma {:induction false} RowOverlaps(caller: seq<Segment>, win: seq<Segment>, u: Segment)
    requires Spaced(caller, 100, 120) && win != []
    ensures OverlapsSaid(RowOf(u, win, caller), caller, u)
  {
    hide Interrupts, BreaksIn, Pick, Spaced;
    var row := RowOf(u, win, caller);
    OverlapsAreFlagged(caller, win, u);
    forall c ensures BreaksIn(c, u) <==> Interrupts(c, u) { BreaksInIff(c, u); }
    var over := Pick(caller, c => Interrupts(c, u));
    if over != [] {
      assert over[0] in over;
      PickIff(caller, c => Interrupts(c, u), over[0]);
    }
  }

  /** Utterance `k` has a caller segment to answer. */
  ghost predicate HasWindow(utts: seq<Segment>, caller: seq<Segment>, k: nat)
    requires k < |utts|
  {
    var previousEnd := if k == 0 then 0 else utts[k-1].end;
    exists c :: c in caller && Precedes(c, previousEnd, utts[k].start)
  }

  lemma {:induction false} HasWindowIff(utts: seq<Segment>, caller: seq<Segment>, k: nat)
    requires k < |utts|
    ensures HasWindow(utts, caller, k) <==> TurnWindow(utts, caller, k) != []
  {
    hide Window;
    var win, previousEnd := TurnWindow(utts, caller, k), PreviousEnd(utts, k);
    if c :| c in caller && Precedes(c, previousEnd, utts[k].start) {
      WindowIff(caller, previousEnd, utts[k].start, c);
    }
    if win != [] {
      WindowIff(caller, previousEnd, utts[k].start, win[0]);
      assert Precedes(win[0], previousEnd, utts[k].start);
    }
  }

  /** `row` is about utterance `k`. */
  ghost predicate RowAt(row: Row, utts: seq<Segment>, caller: seq<Segment>, k: nat)
    requires k < |utts|
  {
    var previousEnd := if k == 0 then 0 else utts[k-1].end;
    Answers(row, caller, previousEnd, utts[k]) && PausesBetween(row, caller) && OverlapsSaid(row, caller, utts[k])
  }

  /** The rows of the first `n` utterances, by the positions `ks` of the utterances they belong to. */
  ghost predicate RowsFor(rows: seq<Row>, utts: seq<Segment>, caller: seq<Segment>, n: nat, ks: seq<nat>)
    requires n <= |utts|
  {
    && |rows| == |ks| && (forall r :: 0 <= r < |ks| ==> ks[r] < n)
    && (forall q, r :: 0 <= q < r < |ks| ==> ks[q] < ks[r])
    && (forall k :: 0 <= k < n ==> (k in ks <==> HasWindow(utts, caller, k)))
    && forall r :: 0 <= r < |rows| ==>
      RowAt(rows[r], utts, caller, ks[r])
  }

  lemma {:induction false} RowsAre(utts: seq<Segment>, caller: seq<Segment>, n: nat) returns (ks: seq<nat>)
    requires Spaced(caller, 100, 120) && n <= |utts|
    ensures RowsFor(Rows(utts, caller, n), utts, caller, n, ks)
  {
    hide RowAt, HasWindow, RowOf, TurnWindow, Spaced;
    ks := [];
    if n > 0 {
      ks := RowsAre(utts, caller, n - 1);
      HasWindowIff(utts, caller, n - 1);
      RowOfWindow(utts, caller, n - 1);
      if TurnWindow(utts, caller, n - 1) != [] {
        ks := ks + [n - 1];
      }
    }
  }

  lemma {:induction false} RowOfWindow(utts: seq<Segment>, caller: seq<Segment>, k: nat)
    requires Spaced(caller, 100, 120) && k < |utts|
    ensures var win := TurnWindow(utts, caller, k);
            win != [] ==> RowAt(RowOf(utts[k], win, caller), utts, caller, k)
  {
    hide Answers, PausesBetween, OverlapsSaid, RowOf, Window;
    var win, previousEnd := TurnWindow(utts, caller, k), PreviousEnd(utts, k);
    if win != [] {
      RowAnswers(caller, previousEnd, utts[k]);
      RowPauses(caller, previousEnd, utts[k]);
      RowOverlaps(caller, win, utts[k]);
    }
  }

  /**
   * Main result: for any two masks there is one row for each utterance that a caller segment precedes, in order. It
   * holds exactly those segments; its gap runs from their latest end to the utterance, its speech from their
   * earliest start to that end.
   */
  lemma {:induction false} RowsReportTurns(callerMask: Mask, agentMask: Mask) returns (ks: seq<nat>)
    ensures var caller := SpeechSegments(callerMask, 120, 100);
            var utts := Utterances(SpeechSegments(agentMask, 120, 150), caller);
            RowsFor(Rows(utts, caller, |utts|), utts, caller, |utts|, ks)
  {
    hide SpeechSegments, Utterances, RowsFor;
    var caller := SpeechSegments(callerMask, 120, 100);
    var utts := Utterances(SpeechSegments(agentMask, 120, 150), caller);
    SegmentsSpaced(callerMask, 120, 100);
    ks := RowsAre(utts, caller, |utts|);
  }
}
