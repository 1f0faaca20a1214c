/**
 * Two passes of the companion data generator (seed-companion.ts): thinning out the
 * anomaly day, and giving each phone reservation the call it came from.
 */
module CompanionSeed {
  import opened Wrappers

  datatype Channel = Phone | Web | Elsewhere

  datatype Reservation = Reservation(reservedAt: int, createdAt: int, partySize: nat, channel: Channel,
    callId: Option<nat>)

  /** `id` stands for the random identifier; `reserved` for the outcome. */
  datatype Call = Call(id: nat, createdAt: int, reserved: bool)

  /** The day key of an instant; the time zone is not part of the model. */
  type Calendar = int -> int

  // ----- the anomaly day

  function OnDay(dayOf: Calendar, rs: seq<Reservation>, day: int): seq<Reservation> {
    if rs == [] then []
    else OnDay(dayOf, rs[..|rs|-1], day) + (if dayOf(rs[|rs|-1].reservedAt) == day then [rs[|rs|-1]] else [])
  }

  function OffDay(dayOf: Calendar, rs: seq<Reservation>, day: int): seq<Reservation> {
    if rs == [] then []
    else OffDay(dayOf, rs[..|rs|-1], day) + (if dayOf(rs[|rs|-1].reservedAt) != day then [rs[|rs|-1]] else [])
  }

  function Covers(rs: seq<Reservation>): nat {
    if rs == [] then 0 else Covers(rs[..|rs|-1]) + rs[|rs|-1].partySize
  }

  /** The covers of a day. */
  function DayCovers(dayOf: Calendar, rs: seq<Reservation>, day: int): nat {
    if rs == [] then 0
    else DayCovers(dayOf, rs[..|rs|-1], day) + (if dayOf(rs[|rs|-1].reservedAt) == day then rs[|rs|-1].partySize else 0)
  }

  lemma {:induction false} DayCoversAre(dayOf: Calendar, rs: seq<Reservation>, day: int)
    ensures DayCovers(dayOf, rs, day) == Covers(OnDay(dayOf, rs, day))
  {
    if rs != [] {
      var front, last := rs[..|rs|-1], rs[|rs|-1];
      DayCoversAre(dayOf, front, day);
      assert (OnDay(dayOf, front, day) + [last])[..|OnDay(dayOf, front, day)|] == OnDay(dayOf, front, day);
      assert OnDay(dayOf, front, day) + [] == OnDay(dayOf, front, day);
    }
  }

  /** From the end, drop the day's reservations while its covers exceed an eighth of `four`. */
  function Thin(dayOf: Calendar, rs: seq<Reservation>, day: int, covers: int, four: nat): seq<Reservation> {
    if rs == [] || 8 * covers <= four then rs
    else
      var front, last := rs[..|rs|-1], rs[|rs|-1];
      if dayOf(last.reservedAt) != day then Thin(dayOf, front, day, covers, four) + [last]
      else Thin(dayOf, front, day, covers - last.partySize, four)
  }

  /** The covers of the four days a week, two, three and four before. */
  function FourWeeks(dayOf: Calendar, rs: seq<Reservation>, day: int): nat {
    DayCovers(dayOf, rs, day - 7) + DayCovers(dayOf, rs, day - 14) + DayCovers(dayOf, rs, day - 21)
      + DayCovers(dayOf, rs, day - 28)
  }

  /** `splice(index, 1)`. */
  function Spliced(rs: seq<Reservation>, index: nat): (r: seq<Reservation>)
    requires index < |rs|
    ensures |r| == |rs| - 1
  { rs[..index] + rs[index+1..] }

  method ThinAnomaly(dayOf: Calendar, reservations: seq<Reservation>, day: int) returns (rs: seq<Reservation>)
    ensures rs == Thin(dayOf, reservations, day,
                       DayCovers(dayOf, reservations, day), FourWeeks(dayOf, reservations, day))
  {
    hide Thin, DayCovers, FourWeeks, Resumed, Spliced;
    rs := reservations;
    var four := FourWeeks(dayOf, reservations, day);
    var covers: int := DayCovers(dayOf, reservations, day);
    ghost var goal := Thin(dayOf, rs, day, covers, four);
    var index := |rs| - 1;
    ResumedAtEnds(dayOf, rs, day, covers, four, |rs|);
    while index >= 0 && 8 * covers > four
      invariant -1 <= index < |rs| && goal == Resumed(dayOf, rs, day, covers, four, index + 1)
    {
      ThinStep(dayOf, rs, index, day, covers, four);
      if dayOf(rs[index].reservedAt) == day {
        covers := covers - rs[index].partySize;
        rs := Spliced(rs, index);
      }
      index := index - 1;
    }
    ResumedAtEnds(dayOf, rs, day, covers, four, index + 1);
  }

  /** Thinning the first `n` of `rs`, with the rest already passed. */
  ghost function Resumed(dayOf: Calendar, rs: seq<Reservation>, day: int, covers: int, four: nat, n: nat)
      : seq<Reservation>
    requires n <= |rs|
  { Thin(dayOf, rs[..n], day, covers, four) + rs[n..] }

  lemma {:induction false} ResumedAtEnds(dayOf: Calendar, rs: seq<Reservation>, day: int, covers: int, four: nat,
                                         n: nat)
    requires n <= |rs|
    ensures n == |rs| ==> Resumed(dayOf, rs, day, covers, four, n) == Thin(dayOf, rs, day, covers, four)
    ensures n == 0 || 8 * covers <= four ==> Resumed(dayOf, rs, day, covers, four, n) == rs
  {
    if n == |rs| {
      assert rs[..n] == rs && Thin(dayOf, rs, day, covers, four) + [] == Thin(dayOf, rs, day, covers, four);
    }
    assert rs[..n] + rs[n..] == rs;
  }

  /** One turn of the loop, on the part not yet looked at and the part already passed. */
  lemma {:induction false} ThinStep(dayOf: Calendar, rs: seq<Reservation>, index: nat, day: int, covers: int, four: nat)
    requires index < |rs| && 8 * covers > four
    ensures Resumed(dayOf, rs, day, covers, four, index + 1)
            == if dayOf(rs[index].reservedAt) == day
               then Resumed(dayOf, Spliced(rs, index), day, covers - rs[index].partySize, four, index)
               else Resumed(dayOf, rs, day, covers, four, index)
  {
    var spliced := Spliced(rs, index);
    assert rs[..index+1][..index] == rs[..index] == spliced[..index] && spliced[index..] == rs[index+1..];
    assert rs[index..] == [rs[index]] + rs[index+1..];
  }

  /** What thinning keeps: every other day, and the first `k` of the day's reservations, as many as fit. */
  ghost predicate Kept(dayOf: Calendar, r: seq<Reservation>, rs: seq<Reservation>, day: int, covers: int, four: nat,
                       k: nat) {
    var all := OnDay(dayOf, rs, day);
    && OffDay(dayOf, r, day) == OffDay(dayOf, rs, day)
    && k <= |all| && OnDay(dayOf, r, day) == all[..k]
    && (8 * (covers - Covers(all) + Covers(all[..k])) <= four || k == 0)
    && (k < |all| ==> 8 * (covers - Covers(all) + Covers(all[..k+1])) > four)
  }

  /** `rs` without the reservations of the day but its first `k`. */
  function FirstOnDay(dayOf: Calendar, rs: seq<Reservation>, day: int, k: nat): seq<Reservation> {
    if rs == [] then []
    else
      var front, last := rs[..|rs|-1], rs[|rs|-1];
      FirstOnDay(dayOf, front, day, k)
      + (if dayOf(last.reservedAt) == day && |OnDay(dayOf, front, day)| >= k then [] else [last])
  }

  lemma {:induction false} AllOfDay(dayOf: Calendar, rs: seq<Reservation>, day: int, k: nat)
    requires k >= |OnDay(dayOf, rs, day)|
    ensures FirstOnDay(dayOf, rs, day, k) == rs
  {
    if rs != [] { AllOfDay(dayOf, rs[..|rs|-1], day, k); }
  }

  lemma {:induction false} ThinKeeps(dayOf: Calendar, rs: seq<Reservation>, day: int, covers: int, four: nat)
      returns (k: nat)
    ensures Kept(dayOf, Thin(dayOf, rs, day, covers, four), rs, day, covers, four, k)
    ensures k <= |OnDay(dayOf, rs, day)| && Thin(dayOf, rs, day, covers, four) == FirstOnDay(dayOf, rs, day, k)
  {
    hide Kept;
    if rs == [] || 8 * covers <= four {
      k := |OnDay(dayOf, rs, day)|;
      AllOfDay(dayOf, rs, day, k);
      KeptWhole(dayOf, rs, day, covers, four);
    } else {
      var front, last := rs[..|rs|-1], rs[|rs|-1];
      assert rs == front + [last];
      if dayOf(last.reservedAt) != day {
        k := ThinKeeps(dayOf, front, day, covers, four);
        KeptAndOther(dayOf, Thin(dayOf, front, day, covers, four), front, last, day, covers, four, k);
      } else {
        k := ThinKeeps(dayOf, front, day, covers - last.partySize, four);
        KeptWithout(dayOf, Thin(dayOf, front, day, covers - last.partySize, four), front, last, day, covers, four, k);
      }
    }
  }

  lemma {:induction false} KeptWhole(dayOf: Calendar, rs: seq<Reservation>, day: int, covers: int, four: nat)
    requires rs == [] || 8 * covers <= four
    ensures Kept(dayOf, rs, rs, day, covers, four, |OnDay(dayOf, rs, day)|)
  {
    var all := OnDay(dayOf, rs, day);
    assert all[..|all|] == all;
  }

  lemma {:induction false} SplitLast(dayOf: Calendar, front: seq<Reservation>, last: Reservation, day: int)
    ensures OnDay(dayOf, front + [last], day)
            == OnDay(dayOf, front, day) + (if dayOf(last.reservedAt) == day then [last] else [])
    ensures OffDay(dayOf, front + [last], day)
            == OffDay(dayOf, front, day) + (if dayOf(last.reservedAt) == day then [] else [last])
  {
    assert (front + [last])[..|front|] == front;
  }

  lemma {:induction false} KeptAndOther(dayOf: Calendar, r: seq<Reservation>, front: seq<Reservation>,
                                        last: Reservation, day: int, covers: int, four: nat, k: nat)
    requires Kept(dayOf, r, front, day, covers, four, k) && dayOf(last.reservedAt) != day
    ensures Kept(dayOf, r + [last], front + [last], day, covers, four, k)
  {
    hide OnDay, OffDay, Covers;
    SplitLast(dayOf, front, last, day);
    SplitLast(dayOf, r, last, day);
    assert OnDay(dayOf, front, day) + [] == OnDay(dayOf, front, day)
      && OnDay(dayOf, r, day) + [] == OnDay(dayOf, r, day);
  }

  lemma {:induction false} KeptWithout(dayOf: Calendar, r: seq<Reservation>, front: seq<Reservation>,
                                       last: Reservation, day: int, covers: int, four: nat, k: nat)
    requires Kept(dayOf, r, front, day, covers - last.partySize, four, k) && dayOf(last.reservedAt) == day
             && 8 * covers > four
    ensures Kept(dayOf, r, front + [last], day, covers, four, k)
  {
    hide OnDay, OffDay;
    SplitLast(dayOf, front, last, day);
    var some, all := OnDay(dayOf, front, day), OnDay(dayOf, front + [last], day);
    assert all == some + [last] && all[..|some|] == some && all[..k] == some[..k];
    assert OffDay(dayOf, front, day) + [] == OffDay(dayOf, front, day);
    if k < |some| { assert all[..k+1] == some[..k+1]; } else { assert all[..k+1] == all; }
  }

  lemma {:induction false} OtherDays(dayOf: Calendar, rs: seq<Reservation>, day: int, other: int)
    requires other != day
    ensures OnDay(dayOf, OffDay(dayOf, rs, day), other) == OnDay(dayOf, rs, other)
  {
    if rs != [] {
      OtherDays(dayOf, rs[..|rs|-1], day, other);
      var front, last := OffDay(dayOf, rs[..|rs|-1], day), rs[|rs|-1];
      assert (front + [last])[..|front|] == front && front + [] == front;
      assert OnDay(dayOf, front, other) + [] == OnDay(dayOf, front, other);
    }
  }

  lemma {:induction false} CoversGrow(rs: seq<Reservation>, j: nat, k: nat)
    requires j <= k <= |rs|
    ensures Covers(rs[..j]) <= Covers(rs[..k])
  {
    if j < k {
      CoversGrow(rs, j, k - 1);
      assert rs[..k][..k-1] == rs[..k-1];
    }
  }

  /**
   * After the pass the day has at most half the average of its four previous weeks, no other
   * day has changed, and what is gone is the shortest tail of the day that achieves this.
   */
  lemma {:induction false} AnomalyIsHalved(dayOf: Calendar, rs: seq<Reservation>, day: int) returns (k: nat)
    ensures var all := OnDay(dayOf, rs, day);
            var r := Thin(dayOf, rs, day, DayCovers(dayOf, rs, day), FourWeeks(dayOf, rs, day));
            var four := Covers(OnDay(dayOf, rs, day - 7)) + Covers(OnDay(dayOf, rs, day - 14))
                        + Covers(OnDay(dayOf, rs, day - 21)) + Covers(OnDay(dayOf, rs, day - 28));
            && OffDay(dayOf, r, day) == OffDay(dayOf, rs, day)
            && (forall other :: other != day ==> OnDay(dayOf, r, other) == OnDay(dayOf, rs, other))
            && r == FirstOnDay(dayOf, rs, day, k)
            && k <= |all| && OnDay(dayOf, r, day) == all[..k] && 8 * Covers(all[..k]) <= four
            && forall j :: k < j <= |all| ==> 8 * Covers(all[..j]) > four
  {
    DayCoversAre(dayOf, rs, day);
    DayCoversAre(dayOf, rs, day - 7);
    DayCoversAre(dayOf, rs, day - 14);
    DayCoversAre(dayOf, rs, day - 21);
    DayCoversAre(dayOf, rs, day - 28);
    var four, all := FourWeeks(dayOf, rs, day), OnDay(dayOf, rs, day);
    k := ThinKeeps(dayOf, rs, day, DayCovers(dayOf, rs, day), four);
    var r := Thin(dayOf, rs, day, DayCovers(dayOf, rs, day), four);
    forall other | other != day ensures OnDay(dayOf, r, other) == OnDay(dayOf, rs, other) {
      OtherDays(dayOf, rs, day, other);
      OtherDays(dayOf, r, day, other);
    }
    assert all[..0] == [];
    forall j | k < j <= |all| ensures 8 * Covers(all[..j]) > four { CoversGrow(all, k + 1, j); }
  }

  // ----- phone reservations and their calls

  const MOST_CALLS: nat := 15

  predicate PhoneOn(dayOf: Calendar, r: Reservation, day: int) { r.channel.Phone? && dayOf(r.createdAt) == day }

  /** How many of the phone reservations created on `day` come before position `i`. */
  function Rank(dayOf: Calendar, rs: seq<Reservation>, day: int, i: nat): nat
    requires i <= |rs|
  {
    if i == 0 then 0
    else
      Rank(dayOf, rs, day, i - 1) + (if rs[i-1].channel.Phone? && dayOf(rs[i-1].createdAt) == day then 1 else 0)
  }

  /** How many calls of a day come from reservations. */
  function Booked(dayOf: Calendar, rs: seq<Reservation>, day: int): nat {
    Min(Rank(dayOf, rs, day, |rs|), 15)
  }

  /**
   * Reservation `i` after the calls of `day`: the first fifteen by phone get the next calls, the others go to
   * the web.
   */
  function Handled(dayOf: Calendar, rs: seq<Reservation>, day: int, base: nat, i: nat): Reservation
    requires i < |rs|
  {
    if !PhoneOn(dayOf, rs[i], day) then rs[i]
    else if Rank(dayOf, rs, day, i) < 15 then rs[i].(callId := Some(base + Rank(dayOf, rs, day, i)))
    else rs[i].(channel := Web)
  }

  /** Reservation `i` after the calls of all `days`. */
  ghost predicate Settled(dayOf: Calendar, earlier: seq<Reservation>, later: seq<Reservation>, days: seq<int>, i: nat)
    requires i < |earlier| == |later|
  {
    var r, day := earlier[i], dayOf(earlier[i].createdAt);
    if !r.channel.Phone? || day !in days then later[i] == r
    else if Rank(dayOf, earlier, day, i) < 15 then
      later[i].callId.Some? && later[i] == r.(callId := later[i].callId)
    else later[i] == r.(channel := Web)
  }

  /** Every link joins a phone reservation to a call of its own, made when it was. */
  ghost predicate Linked(rs: seq<Reservation>, calls: seq<Call>) {
    && (forall j :: 0 <= j < |calls| ==> calls[j].id == j)
    && (forall i :: 0 <= i < |rs| && rs[i].callId.Some? ==>
          rs[i].channel.Phone? && rs[i].callId.value < |calls|
          && calls[rs[i].callId.value].reserved && calls[rs[i].callId.value].createdAt == rs[i].createdAt)
    && (forall i, k :: 0 <= i < k < |rs| && rs[i].callId.Some? ==> rs[i].callId != rs[k].callId)
    && (forall j: nat :: j < |calls| && calls[j].reserved ==> HasReservation(rs, j))
  }

  ghost predicate HasReservation(rs: seq<Reservation>, call: nat) {
    exists i :: 0 <= i < |rs| && rs[i].callId == Some(call)
  }

  /** `later` is `earlier` with only channels and call ids changed, and channels only from phone to web. */
  ghost predicate OnlyRelabelled(earlier: seq<Reservation>, later: seq<Reservation>) {
    |later| == |earlier| && forall i :: 0 <= i < |later| ==>
      later[i] == earlier[i].(channel := later[i].channel, callId := later[i].callId)
      && (later[i].channel == earlier[i].channel || (earlier[i].channel.Phone? && later[i].channel.Web?))
  }

  class Generator {
    const dayOf: Calendar
    var reservations: seq<Reservation>
    var calls: seq<Call>

    constructor (dayOf: Calendar, reservations: seq<Reservation>)
      ensures this.dayOf == dayOf && this.reservations == reservations && calls == []
    {
      this.dayOf, this.reservations, this.calls := dayOf, reservations, [];
    }

    /** The phone reservations of a day, by position. */
    method PhoneBookings(day: int) returns (found: seq<nat>)
      ensures forall k :: 0 <= k < |found| ==> found[k] < |reservations| && PhoneOn(dayOf, reservations[found[k]], day)
      ensures forall j, k :: 0 <= j < k < |found| ==> found[j] < found[k]
      ensures forall i: nat :: i < |reservations| && PhoneOn(dayOf, reservations[i], day) ==> i in found
    {
      found := [];
      for i := 0 to |reservations|
        invariant forall k :: 0 <= k < |found| ==> found[k] < i && PhoneOn(dayOf, reservations[found[k]], day)
        invariant forall j, k :: 0 <= j < k < |found| ==> found[j] < found[k]
        invariant forall n: nat :: n < i && PhoneOn(dayOf, reservations[n], day) ==> n in found
      {
        if PhoneOn(dayOf, reservations[i], day) { found := found + [i]; }
      }
    }

    /** Beyond the fifteenth, a phone reservation becomes a web one. */
    method SendToWeb(bookings: seq<nat>)
      requires forall k :: 0 <= k < |bookings| ==>
        bookings[k] < |reservations| && reservations[bookings[k]].channel.Phone?
      requires forall j, k :: 0 <= j < k < |bookings| ==> bookings[j] < bookings[k]
      modifies this`reservations
      ensures |reservations| == |old(reservations)|
      ensures forall i: nat :: i < |reservations| ==>
        reservations[i] == if i in bookings then old(reservations)[i].(channel := Web) else old(reservations)[i]
    {
      for k := 0 to |bookings|
        invariant |reservations| == |old(reservations)|
        invariant forall i: nat :: i < |reservations| ==>
          reservations[i] == if i in bookings[..k] then old(reservations)[i].(channel := Web) else old(reservations)[i]
      {
        reservations := reservations[bookings[k] := reservations[bookings[k]].(channel := Web)];
        assert bookings[..k+1] == bookings[..k] + [bookings[k]];
      }
      assert bookings[..|bookings|] == bookings;
    }

    /** The calls of a day: first those of the reservations in `booked`, then others up to its volume. */
    method PlaceCalls(booked: seq<nat>, volume: nat, instants: nat -> int)
      requires Linked(reservations, calls) && |booked| <= volume && Increasing(booked)
      requires forall k :: 0 <= k < |booked| ==>
        booked[k] < |reservations| && reservations[booked[k]].channel.Phone? && reservations[booked[k]].callId.None?
      modifies this
      ensures Linked(reservations, calls) && |calls| == |old(calls)| + volume && calls[..|old(calls)|] == old(calls)
      ensures Progress(old(reservations), reservations, booked, |booked|, |old(calls)|)
      ensures forall j :: |old(calls)| + |booked| <= j < |calls| ==>
        calls[j] == Call(j, instants(j - |old(calls)|), false)
    {
      hide Linked, HasReservation, Progress;
      ghost var before, base := reservations, |calls|;
      NoProgress(before, booked, base);
      for index := 0 to volume
        invariant Linked(reservations, calls)
        invariant |calls| == base + index && calls[..base] == old(calls)
        invariant Progress(before, reservations, booked, Min(index, |booked|), base)
        invariant forall j :: base + |booked| <= j < |calls| ==> calls[j] == Call(j, instants(j - base), false)
      {
        if index < |booked| {
          var i := booked[index];
          NextIsUntouched(before, reservations, booked, index, base);
          LinkStep(reservations, calls, i);
          ProgressStep(before, reservations, booked, index, base);
          calls := calls + [Call(|calls|, reservations[i].createdAt, true)];
          reservations := reservations[i := reservations[i].(callId := Some(|calls| - 1))];
        } else {
          FillStep(reservations, calls, Call(|calls|, instants(index), false));
          calls := calls + [Call(|calls|, instants(index), false)];
        }
      }
    }

    /** One day: its phone reservations get their calls, and other calls fill up the day's volume. */
    method LinkDay(day: int, drawn: nat, instants: nat -> int)
      requires 3 <= drawn <= MOST_CALLS && Linked(reservations, calls)
      requires forall i :: 0 <= i < |reservations| && PhoneOn(dayOf, reservations[i], day) ==>
        reservations[i].callId.None?
      modifies this
      ensures Linked(reservations, calls) && OnlyRelabelled(old(reservations), reservations)
      ensures forall i :: 0 <= i < |reservations| ==>
        reservations[i] == Handled(dayOf, old(reservations), day, |old(calls)|, i)
      ensures |calls| == |old(calls)| + Max(drawn, Booked(dayOf, old(reservations), day)) <= |old(calls)| + 15
      ensures calls[..|old(calls)|] == old(calls)
      ensures forall j :: |old(calls)| + Booked(dayOf, old(reservations), day) <= j < |calls| ==>
        calls[j] == Call(j, instants(j - |old(calls)|), false)
    {
      hide Linked, Progress, Handled, Rank, OnlyRelabelled, KeptStayPhone;
      var bookings := PhoneBookings(day);
      BookingsAreAll(dayOf, reservations, day, bookings);
      var kept := if |bookings| <= MOST_CALLS then |bookings| else MOST_CALLS;
      SendToWeb(bookings[kept..]);
      ghost var before, base := reservations, |calls|;
      KeepTheFirst(dayOf, old(reservations), before, calls, bookings, kept, day);
      FirstAreReady(old(reservations), before, bookings, kept);
      PlaceCalls(bookings[..kept], Max(drawn, kept), instants);
      DayIsLinked(dayOf, old(reservations), before, reservations, bookings, kept, day, base);
      HandledIsRelabelled(dayOf, old(reservations), reservations, day, base);
    }

    /** All days in turn. `volumes` are the drawn call volumes. */
    method LinkAll(days: seq<int>, volumes: seq<nat>, instants: nat -> int)
      requires |volumes| == |days| && (forall k :: 0 <= k < |volumes| ==> 3 <= volumes[k] <= MOST_CALLS)
      requires forall j, k :: 0 <= j < k < |days| ==> days[j] != days[k]
      requires calls == [] && forall i :: 0 <= i < |reservations| ==> reservations[i].callId.None?
      modifies this
      ensures Linked(reservations, calls) && OnlyRelabelled(old(reservations), reservations)
      ensures |calls| <= 15 * |days|
      ensures forall i :: 0 <= i < |reservations| ==> Settled(dayOf, old(reservations), reservations, days, i)
      ensures forall i :: 0 <= i < |reservations| && reservations[i].channel.Phone? ==>
        (reservations[i].callId.Some? <==> dayOf(reservations[i].createdAt) in days)
    {
      hide Linked, Handled, Settled, PhoneOn;
      NothingLinked(reservations);
      ghost var first := reservations;
      NothingSettled(dayOf, first);
      for k := 0 to |days|
        invariant Linked(reservations, calls) && OnlyRelabelled(first, reservations)
        invariant |calls| <= 15 * k
        invariant forall i :: 0 <= i < |reservations| ==> Settled(dayOf, first, reservations, days[..k], i)
      {
        ghost var before, base := reservations, |calls|;
        DayIsUntouched(dayOf, first, before, days[..k], days[k]);
        LinkDay(days[k], volumes[k], instants);
        assert days[..k+1] == days[..k] + [days[k]];
        DayIsSettled(dayOf, first, before, reservations, days[..k], days[k], base);
      }
      assert days[..|days|] == days;
      SettledIsLinked(dayOf, first, reservations, days);
    }
  }

  lemma {:induction false} NothingSettled(dayOf: Calendar, rs: seq<Reservation>)
    ensures forall i :: 0 <= i < |rs| ==> Settled(dayOf, rs, rs, [], i)
  {}

  lemma {:induction false} RankSame(dayOf: Calendar, rs: seq<Reservation>, later: seq<Reservation>, day: int, i: nat)
    requires i <= |rs| == |later|
    requires forall j :: 0 <= j < |rs| ==> PhoneOn(dayOf, rs[j], day) == PhoneOn(dayOf, later[j], day)
    ensures Rank(dayOf, rs, day, i) == Rank(dayOf, later, day, i)
  {
    if i > 0 { RankSame(dayOf, rs, later, day, i - 1); }
  }

  /** A day that is yet to come has its reservations as they were, and its ranks. */
  lemma {:induction false} DayIsUntouched(dayOf: Calendar, first: seq<Reservation>, before: seq<Reservation>,
                                          days: seq<int>, day: int)
    requires |before| == |first| && forall i :: 0 <= i < |first| ==> Settled(dayOf, first, before, days, i)
    requires day !in days && forall i :: 0 <= i < |first| ==> first[i].callId.None?
    ensures forall i :: 0 <= i < |first| ==> PhoneOn(dayOf, first[i], day) == PhoneOn(dayOf, before[i], day)
    ensures forall i :: 0 <= i < |first| && PhoneOn(dayOf, before[i], day) ==> before[i] == first[i]
    ensures forall i :: 0 <= i < |first| && PhoneOn(dayOf, before[i], day) ==> before[i].callId.None?
    ensures forall i :: 0 <= i <= |first| ==> Rank(dayOf, first, day, i) == Rank(dayOf, before, day, i)
  {
    hide Rank;
    forall i | 0 <= i < |first|
      ensures PhoneOn(dayOf, first[i], day) == PhoneOn(dayOf, before[i], day)
      ensures PhoneOn(dayOf, before[i], day) ==> before[i] == first[i]
    {
      assert Settled(dayOf, first, before, days, i);
    }
    forall i: nat | i <= |first| ensures Rank(dayOf, first, day, i) == Rank(dayOf, before, day, i) {
      RankSame(dayOf, first, before, day, i);
    }
  }

  lemma {:induction false} DayIsSettled(dayOf: Calendar, first: seq<Reservation>, before: seq<Reservation>,
                                        later: seq<Reservation>, days: seq<int>, day: int, base: nat)
    requires |later| == |before| == |first| && day !in days && OnlyRelabelled(first, before)
    requires forall i :: 0 <= i < |first| ==> Settled(dayOf, first, before, days, i)
    requires forall i :: 0 <= i < |first| ==> first[i].callId.None?
    requires forall i :: 0 <= i < |later| ==> later[i] == Handled(dayOf, before, day, base, i)
    ensures OnlyRelabelled(first, later)
    ensures forall i :: 0 <= i < |first| ==> Settled(dayOf, first, later, days + [day], i)
  {
    hide Rank;
    DayIsUntouched(dayOf, first, before, days, day);
    forall i: nat | i < |first| ensures Settled(dayOf, first, later, days + [day], i) {
      assert Settled(dayOf, first, before, days, i) && later[i] == Handled(dayOf, before, day, base, i);
      assert Rank(dayOf, first, day, i) == Rank(dayOf, before, day, i);
    }
  }

  lemma {:induction false} SettledIsLinked(dayOf: Calendar, first: seq<Reservation>, later: seq<Reservation>,
                                           days: seq<int>)
    requires |later| == |first| && forall i :: 0 <= i < |first| ==> Settled(dayOf, first, later, days, i)
    requires forall i :: 0 <= i < |first| ==> first[i].callId.None?
    ensures forall i :: 0 <= i < |later| && later[i].channel.Phone? ==>
      (later[i].callId.Some? <==> dayOf(later[i].createdAt) in days)
  {
    hide Rank;
    forall i | 0 <= i < |later| && later[i].channel.Phone?
      ensures later[i].callId.Some? <==> dayOf(later[i].createdAt) in days
    {
      assert Settled(dayOf, first, later, days, i);
    }
  }

  // ----- one day

  /** The bookings of a day, in order, have the ranks 0, 1, 2 and so on. */
  lemma {:induction false} RankIs(dayOf: Calendar, rs: seq<Reservation>, day: int, bookings: seq<nat>, i: nat)
    requires i <= |rs| && Increasing(bookings)
    requires forall k :: 0 <= k < |bookings| ==> bookings[k] < |rs| && PhoneOn(dayOf, rs[bookings[k]], day)
    requires forall j: nat :: j < |rs| && PhoneOn(dayOf, rs[j], day) ==> j in bookings
    ensures Rank(dayOf, rs, day, i) <= |bookings|
    ensures forall k :: 0 <= k < |bookings| ==> (bookings[k] < i <==> k < Rank(dayOf, rs, day, i))
  {
    if i > 0 {
      RankIs(dayOf, rs, day, bookings, i - 1);
      if PhoneOn(dayOf, rs[i-1], day) {
        assert i - 1 in bookings;
        var k :| 0 <= k < |bookings| && bookings[k] == i - 1;
        var r := Rank(dayOf, rs, day, i - 1);
        assert k >= r && bookings[r] >= i - 1;
        assert k == r;
      }
    }
  }

  lemma {:induction false} BookingsAreAll(dayOf: Calendar, rs: seq<Reservation>, day: int, bookings: seq<nat>)
    requires Increasing(bookings)
    requires forall k :: 0 <= k < |bookings| ==> bookings[k] < |rs| && PhoneOn(dayOf, rs[bookings[k]], day)
    requires forall j: nat :: j < |rs| && PhoneOn(dayOf, rs[j], day) ==> j in bookings
    ensures Rank(dayOf, rs, day, |rs|) == |bookings|
    ensures forall k :: 0 <= k < |bookings| ==> Rank(dayOf, rs, day, bookings[k]) == k
  {
    hide PhoneOn, Rank;
    RankIs(dayOf, rs, day, bookings, |rs|);
    if bookings != [] { assert bookings[|bookings|-1] < |rs|; }
    forall k | 0 <= k < |bookings| ensures Rank(dayOf, rs, day, bookings[k]) == k {
      RankIs(dayOf, rs, day, bookings, bookings[k]);
      assert !(k < Rank(dayOf, rs, day, bookings[k]));
      if k > 0 { assert bookings[k-1] < bookings[k]; }
    }
  }

  ghost predicate Increasing(xs: seq<nat>) { forall j, k :: 0 <= j < k < |xs| ==> xs[j] < xs[k] }

  /** The first `kept` bookings are untouched phone reservations, the others have become web ones. */
  ghost predicate KeptStayPhone(rs: seq<Reservation>, before: seq<Reservation>, bookings: seq<nat>, kept: nat) {
    && kept <= |bookings| && |before| == |rs| && Increasing(bookings)
    && (forall k :: 0 <= k < |bookings| ==> bookings[k] < |rs| && rs[bookings[k]].channel.Phone?)
    && (forall k :: 0 <= k < kept ==> before[bookings[k]] == rs[bookings[k]] && rs[bookings[k]].callId.None?)
    && (forall k :: kept <= k < |bookings| ==> before[bookings[k]] == rs[bookings[k]].(channel := Web))
    && (forall i: nat :: i < |rs| && i !in bookings ==> before[i] == rs[i])
  }

  /** The first `n` bookings have got the calls from `base` on; nothing else has changed. */
  ghost predicate Progress(before: seq<Reservation>, rs: seq<Reservation>, bookings: seq<nat>, n: nat, base: nat) {
    && n <= |bookings| && |rs| == |before|
    && (forall k :: 0 <= k < n ==>
          bookings[k] < |rs| && rs[bookings[k]] == before[bookings[k]].(callId := Some(base + k)))
    && (forall i: nat :: i < |rs| && i !in bookings[..n] ==> rs[i] == before[i])
  }

  lemma {:induction false} KeepTheFirst(dayOf: Calendar, rs: seq<Reservation>, before: seq<Reservation>,
                                        calls: seq<Call>,
                                        bookings: seq<nat>, kept: nat, day: int)
    requires Linked(rs, calls) && |before| == |rs| && kept <= |bookings| && Increasing(bookings)
    requires forall k :: 0 <= k < |bookings| ==> bookings[k] < |rs| && PhoneOn(dayOf, rs[bookings[k]], day)
    requires forall i :: 0 <= i < |rs| && PhoneOn(dayOf, rs[i], day) ==> rs[i].callId.None?
    requires forall i: nat :: i < |rs| ==> before[i] == if i in bookings[kept..] then rs[i].(channel := Web) else rs[i]
    ensures KeptStayPhone(rs, before, bookings, kept) && Linked(before, calls)
  {
    hide Linked;
    forall i: nat | i < |rs| && i in bookings[kept..] ensures rs[i].callId.None? {
      var k :| kept <= k < |bookings| && bookings[k] == i;
    }
    WebKeepsLinked(rs, before, calls);
    forall k | 0 <= k < |bookings| ensures bookings[k] in bookings[kept..] <==> k >= kept {
      if k >= kept { assert bookings[kept..][k - kept] == bookings[k]; }
    }
  }

  lemma {:induction false} NoProgress(rs: seq<Reservation>, bookings: seq<nat>, base: nat)
    ensures Progress(rs, rs, bookings, 0, base)
  {}

  lemma {:induction false} FirstAreReady(rs: seq<Reservation>, before: seq<Reservation>, bookings: seq<nat>, kept: nat)
    requires KeptStayPhone(rs, before, bookings, kept)
    ensures Increasing(bookings[..kept])
    ensures forall k :: 0 <= k < kept ==>
      var i := bookings[..kept][k];
      i < |before| && before[i].channel.Phone? && before[i].callId.None?
  {}

  lemma {:induction false} NextIsUntouched(before: seq<Reservation>, rs: seq<Reservation>, booked: seq<nat>, index: nat,
                                           base: nat)
    requires Progress(before, rs, booked, index, base) && Increasing(booked)
    requires index < |booked| && booked[index] < |before|
    ensures |rs| == |before| && rs[booked[index]] == before[booked[index]]
  {}

  lemma {:induction false} ProgressStep(before: seq<Reservation>, rs: seq<Reservation>, bookings: seq<nat>, index: nat,
                                        base: nat)
    requires Progress(before, rs, bookings, index, base) && index < |bookings| && Increasing(bookings)
    requires bookings[index] < |rs| && rs[bookings[index]] == before[bookings[index]]
    ensures var i := bookings[index];
            Progress(before, rs[i := rs[i].(callId := Some(base + index))], bookings, index + 1, base)
  {
    assert bookings[..index+1] == bookings[..index] + [bookings[index]];
  }

  lemma {:induction false} DayIsLinked(dayOf: Calendar, rs: seq<Reservation>, before: seq<Reservation>,
                                       later: seq<Reservation>, bookings: seq<nat>, kept: nat, day: int, base: nat)
    requires KeptStayPhone(rs, before, bookings, kept) && Progress(before, later, bookings[..kept], kept, base)
    requires kept == Min(|bookings|, MOST_CALLS)
    requires forall k :: 0 <= k < |bookings| ==> PhoneOn(dayOf, rs[bookings[k]], day)
    requires forall i: nat :: i < |rs| && PhoneOn(dayOf, rs[i], day) ==> i in bookings
    requires forall k :: 0 <= k < |bookings| ==> Rank(dayOf, rs, day, bookings[k]) == k
    ensures |later| == |rs|
    ensures forall i :: 0 <= i < |later| ==> later[i] == Handled(dayOf, rs, day, base, i)
  {
    hide Rank, PhoneOn;
    forall i: nat | i < |rs| ensures later[i] == Handled(dayOf, rs, day, base, i) {
      if i in bookings {
        var k :| 0 <= k < |bookings| && bookings[k] == i;
        if k >= kept { assert i !in bookings[..kept]; } else { assert bookings[..kept][k] == i; }
      } else {
        assert i !in bookings[..kept];
      }
    }
  }

  lemma {:induction false} HandledIsRelabelled(dayOf: Calendar, rs: seq<Reservation>, later: seq<Reservation>, day: int,
                                               base: nat)
    requires |later| == |rs| && forall i :: 0 <= i < |later| ==> later[i] == Handled(dayOf, rs, day, base, i)
    ensures OnlyRelabelled(rs, later)
  {
    hide Rank;
  }

  lemma {:induction false} NothingLinked(rs: seq<Reservation>)
    requires forall i :: 0 <= i < |rs| ==> rs[i].callId.None?
    ensures Linked(rs, [])
  {}

  lemma {:induction false} WebKeepsLinked(rs: seq<Reservation>, later: seq<Reservation>, calls: seq<Call>)
    requires Linked(rs, calls) && |later| == |rs|
    requires forall i :: 0 <= i < |rs| ==>
      later[i] == rs[i] || (rs[i].callId.None? && later[i] == rs[i].(channel := Web))
    ensures Linked(later, calls)
  {
    forall j: nat | j < |calls| && calls[j].reserved ensures HasReservation(later, j) {
      assert HasReservation(rs, j);
      var i :| 0 <= i < |rs| && rs[i].callId == Some(j);
      assert later[i].callId == Some(j);
    }
  }

  lemma {:induction false} LinkStep(rs: seq<Reservation>, calls: seq<Call>, i: nat)
    requires Linked(rs, calls) && i < |rs| && rs[i].channel.Phone? && rs[i].callId.None?
    ensures Linked(rs[i := rs[i].(callId := Some(|calls|))], calls + [Call(|calls|, rs[i].createdAt, true)])
  {
    var later, more := rs[i := rs[i].(callId := Some(|calls|))], calls + [Call(|calls|, rs[i].createdAt, true)];
    forall j: nat | j < |more| && more[j].reserved ensures HasReservation(later, j) {
      if j < |calls| {
        assert HasReservation(rs, j);
        var k :| 0 <= k < |rs| && rs[k].callId == Some(j);
        assert later[k].callId == Some(j);
      } else {
        assert later[i].callId == Some(j);
      }
    }
  }

  lemma {:induction false} FillStep(rs: seq<Reservation>, calls: seq<Call>, call: Call)
    requires Linked(rs, calls) && call.id == |calls| && !call.reserved
    ensures Linked(rs, calls + [call])
  {
    forall j: nat | j < |calls + [call]| && (calls + [call])[j].reserved ensures HasReservation(rs, j) {
      assert calls[j].reserved;
    }
  }

  // ----- the bijection

  function PhoneSet(rs: seq<Reservation>): set<int> { set i | 0 <= i < |rs| && rs[i].channel.Phone? }

  function ReservedSet(calls: seq<Call>): set<int> { set j | 0 <= j < |calls| && calls[j].reserved }

  lemma {:induction false} ImageSize(a: set<int>, f: int -> int, b: set<int>)
    requires b == set x | x in a :: f(x)
    requires forall x, y :: x in a && y in a && f(x) == f(y) ==> x == y
    ensures |a| == |b|
    decreases |a|
  {
    if a == {} {
      assert b == {};
    } else {
      var x := Member(a);
      var c := set y | y in a - {x} :: f(y);
      ImageSize(a - {x}, f, c);
      assert b == c + {f(x)} && f(x) !in c;
    }
  }

  /**
   * When all phone reservations are linked, they and the reserved calls are equally many: the links are one to
   * one and onto.
   */
  lemma {:induction false} OneCallEach(rs: seq<Reservation>, calls: seq<Call>)
    requires Linked(rs, calls) && forall i :: 0 <= i < |rs| && rs[i].channel.Phone? ==> rs[i].callId.Some?
    ensures |PhoneSet(rs)| == |ReservedSet(calls)|
  {
    var f := (i: int) => if 0 <= i < |rs| && rs[i].callId.Some? then rs[i].callId.value else -1;
    forall j | j in ReservedSet(calls) ensures exists i :: i in PhoneSet(rs) && f(i) == j {
      assert HasReservation(rs, j);
      var i :| 0 <= i < |rs| && rs[i].callId == Some(j);
      assert i in PhoneSet(rs) && f(i) == j;
    }
    assert ReservedSet(calls) == set i | i in PhoneSet(rs) :: f(i);
    ImageSize(PhoneSet(rs), f, ReservedSet(calls));
  }

  /** The first fifteen phone reservations of each creation day. */
  ghost function FirstByPhone(dayOf: Calendar, rs: seq<Reservation>): set<int> {
    set i: nat | i < |rs| && rs[i].channel.Phone? && Rank(dayOf, rs, dayOf(rs[i].createdAt), i) < 15
  }

  /** When every creation day is in the window, the reserved calls are one for each of those reservations. */
  lemma {:induction false} CallsForTheFirst(dayOf: Calendar, first: seq<Reservation>, later: seq<Reservation>,
                                            calls: seq<Call>, days: seq<int>)
    requires Linked(later, calls) && |later| == |first|
    requires forall i :: 0 <= i < |first| ==> Settled(dayOf, first, later, days, i)
    requires forall i :: 0 <= i < |first| ==> first[i].callId.None? && dayOf(first[i].createdAt) in days
    ensures PhoneSet(later) == FirstByPhone(dayOf, first) && |ReservedSet(calls)| == |FirstByPhone(dayOf, first)|
  {
    hide Linked, Rank;
    forall i: nat | i < |first|
      ensures later[i].channel.Phone? <==> i in FirstByPhone(dayOf, first)
      ensures later[i].channel.Phone? ==> later[i].callId.Some?
    {
      assert Settled(dayOf, first, later, days, i);
    }
    OneCallEach(later, calls);
  }
}
