/**
 * Greedy table placement (apps/api/seed.ts): reservations in order of start, each
 * lasting the same time, take the first free table that fits the party.
 */
module TablePlacement {
  import opened Wrappers
  import opened Sorting

  const SERVICE_MS: nat := 120 * 60_000

  datatype Table = Table(id: nat, capacity: nat, minCapacity: nat)

  datatype Reservation = Reservation(reservedAt: int, partySize: nat)

  datatype Booking = Booking(tableId: nat, start: int, end: int)

  predicate Takes(t: Table, size: nat) { t.minCapacity <= size <= t.capacity }

  predicate Fits(t: Table, r: Reservation) { Takes(t, r.partySize) }

  predicate Overlaps(b: Booking, start: int, end: int) { b.start < end && start < b.end }

  predicate Busy(t: Table, taken: seq<Booking>, start: int) {
    exists b :: b in taken && b.tableId == t.id && Overlaps(b, start, start + SERVICE_MS)
  }

  predicate Available(t: Table, r: Reservation, taken: seq<Booking>) {
    Fits(t, r) && !Busy(t, taken, r.reservedAt)
  }

  /** The tables as the query returns them: no id twice, smallest first. */
  ghost predicate Plan(tables: seq<Table>) {
    && (forall i, j :: 0 <= i < j < |tables| ==> tables[i].id != tables[j].id)
    && (forall i, j :: 0 <= i < j < |tables| ==> tables[i].capacity <= tables[j].capacity)
  }

  ghost predicate Sorted(rs: seq<Reservation>) {
    forall i, j :: 0 <= i < j < |rs| ==> rs[i].reservedAt <= rs[j].reservedAt
  }

  // ----- the code

  function StartOf(r: Reservation): real { r.reservedAt as real }

  function SortByStart(rs: seq<Reservation>): seq<Reservation> { Sort(rs, StartOf) }

  function FirstAvailable(tables: seq<Table>, r: Reservation, taken: seq<Booking>): (found: Option<Table>)
    ensures found.Some? ==> found.value in tables && Available(found.value, r, taken)
    ensures found.None? ==> forall t :: t in tables ==> !Available(t, r, taken)
  {
    if tables == [] then None
    else if Available(tables[0], r, taken) then Some(tables[0])
    else FirstAvailable(tables[1..], r, taken)
  }

  function BookingFor(t: Table, r: Reservation): Booking {
    Booking(t.id, r.reservedAt, r.reservedAt + SERVICE_MS)
  }

  /** The bookings made for `rs`, in order. */
  function Bookings(rs: seq<Reservation>, seats: seq<Option<Table>>): seq<Booking>
    requires |rs| == |seats|
  {
    if rs == [] then []
    else Bookings(rs[..|rs|-1], seats[..|rs|-1])
         + (match seats[|rs|-1] case Some(t) => [BookingFor(t, rs[|rs|-1])] case None => [])
  }

  /** Each reservation has the first table that was available when its turn came. */
  ghost predicate FirstFit(tables: seq<Table>, rs: seq<Reservation>, seats: seq<Option<Table>>) {
    && |seats| == |rs|
    && forall n :: 0 <= n < |rs| ==> seats[n] == FirstAvailable(tables, rs[n], Bookings(rs[..n], seats[..n]))
  }

  method PlaceTables(tables: seq<Table>, reservations: seq<Reservation>)
      returns (sorted: seq<Reservation>, seats: seq<Option<Table>>, taken: seq<Booking>)
    ensures sorted == SortByStart(reservations)
    ensures FirstFit(tables, sorted, seats) && taken == Bookings(sorted, seats)
  {
    hide FirstAvailable;
    sorted := SortByStart(reservations);
    seats, taken := [], [];
    for n := 0 to |sorted|
      invariant FirstFit(tables, sorted[..n], seats) && taken == Bookings(sorted[..n], seats)
    {
      var table := FirstAvailable(tables, sorted[n], taken);
      ExtendFirstFit(tables, sorted[..n], seats, sorted[n], table);
      assert sorted[..n+1] == sorted[..n] + [sorted[n]];
      seats := seats + [table];
      if table.Some? { taken := taken + [BookingFor(table.value, sorted[n])]; }
    }
    assert sorted[..|sorted|] == sorted;
  }

  lemma {:induction false} ExtendFirstFit(tables: seq<Table>, rs: seq<Reservation>, seats: seq<Option<Table>>,
                                          r: Reservation, table: Option<Table>)
    requires FirstFit(tables, rs, seats) && table == FirstAvailable(tables, r, Bookings(rs, seats))
    ensures FirstFit(tables, rs + [r], seats + [table])
    ensures Bookings(rs + [r], seats + [table])
            == Bookings(rs, seats) + (if table.Some? then [BookingFor(table.value, r)] else [])
  {
    hide FirstAvailable;
    var rs', seats' := rs + [r], seats + [table];
    forall n | 0 <= n < |rs'| ensures seats'[n] == FirstAvailable(tables, rs'[n], Bookings(rs'[..n], seats'[..n])) {
      assert rs'[..n] == rs[..n] && seats'[..n] == seats[..n];
      if n == |rs| { assert rs[..n] == rs && seats[..n] == seats; }
    }
    assert rs'[..|rs|] == rs && seats'[..|rs|] == seats;
  }

  // ----- the sort

  /** By start, with those of one start in their order. */
  lemma {:induction false} SortIsSorted(rs: seq<Reservation>)
    ensures Sorted(SortByStart(rs)) && multiset(SortByStart(rs)) == multiset(rs)
    ensures forall k :: WithKey(SortByStart(rs), StartOf, k) == WithKey(rs, StartOf, k)
  {
    hide WithKey;
    SortSorts(rs, StartOf);
    var sorted := SortByStart(rs);
    forall i, j | 0 <= i < j < |sorted| ensures sorted[i].reservedAt <= sorted[j].reservedAt {
      assert StartOf(sorted[i]) <= StartOf(sorted[j]);
    }
  }

  // ----- single steps

  lemma {:induction false} BookingsAre(rs: seq<Reservation>, seats: seq<Option<Table>>, b: Booking)
    requires |rs| == |seats|
    ensures b in Bookings(rs, seats)
            <==> exists i :: 0 <= i < |rs| && seats[i].Some? && b == BookingFor(seats[i].value, rs[i])
  {
    if rs != [] {
      var m := |rs| - 1;
      BookingsAre(rs[..m], seats[..m], b);
      assert forall i :: 0 <= i < m ==> seats[..m][i] == seats[i] && rs[..m][i] == rs[i];
    }
  }

  /** Reservation `i` holds table `t` at instant `x`. */
  ghost predicate Holds(rs: seq<Reservation>, seats: seq<Option<Table>>, i: nat, t: Table, x: int) {
    i < |rs| == |seats| && seats[i] == Some(t) && rs[i].reservedAt <= x < rs[i].reservedAt + SERVICE_MS
  }

  lemma {:induction false} TableAmongSeats(tables: seq<Table>, rs: seq<Reservation>, seats: seq<Option<Table>>, i: nat)
    requires FirstFit(tables, rs, seats) && i < |rs| && seats[i].Some?
    ensures seats[i].value in tables && Fits(seats[i].value, rs[i])
  {}

  /** In start order, a table is busy exactly when some reservation holds it at the instant of arrival. */
  lemma {:induction false} BusyIffHeld(tables: seq<Table>, rs: seq<Reservation>, seats: seq<Option<Table>>, n: nat,
                                       t: Table)
    requires Plan(tables) && Sorted(rs) && FirstFit(tables, rs, seats) && n < |rs| && t in tables
    ensures Busy(t, Bookings(rs[..n], seats[..n]), rs[n].reservedAt)
            <==> exists i :: 0 <= i < n && Holds(rs, seats, i, t, rs[n].reservedAt)
  {
    hide FirstAvailable, Bookings;
    var taken, x := Bookings(rs[..n], seats[..n]), rs[n].reservedAt;
    if b :| b in taken && b.tableId == t.id && Overlaps(b, x, x + SERVICE_MS) {
      BookingsAre(rs[..n], seats[..n], b);
      var i :| 0 <= i < n && seats[..n][i].Some? && b == BookingFor(seats[..n][i].value, rs[..n][i]);
      TableAmongSeats(tables, rs, seats, i);
      assert Holds(rs, seats, i, t, x);
    }
    if i :| 0 <= i < n && Holds(rs, seats, i, t, x) {
      var b := BookingFor(t, rs[i]);
      assert seats[..n][i] == seats[i] && rs[..n][i] == rs[i];
      BookingsAre(rs[..n], seats[..n], b);
      assert Overlaps(b, x, x + SERVICE_MS);
    }
  }

  /** A reservation is left without a table exactly when each table that fits it is held at its start. */
  lemma {:induction false} RefusedIffAllHeld(tables: seq<Table>, rs: seq<Reservation>, seats: seq<Option<Table>>,
                                             n: nat)
    requires Plan(tables) && Sorted(rs) && FirstFit(tables, rs, seats) && n < |rs|
    ensures seats[n] == None
            <==> forall t :: t in tables && Fits(t, rs[n]) ==>
              exists i :: 0 <= i < n && Holds(rs, seats, i, t, rs[n].reservedAt)
  {
    forall t | t in tables
      ensures Available(t, rs[n], Bookings(rs[..n], seats[..n]))
              <==> Fits(t, rs[n]) && !exists i :: 0 <= i < n && Holds(rs, seats, i, t, rs[n].reservedAt)
    {
      BusyIffHeld(tables, rs, seats, n, t);
    }
    assert seats[n] == FirstAvailable(tables, rs[n], Bookings(rs[..n], seats[..n]));
  }

  /**
   * Table `j` takes the party of reservation `n`, and nobody seated there earlier still has it: services last
   * two hours.
   */
  ghost predicate Open(tables: seq<Table>, rs: seq<Reservation>, seats: seq<Option<Table>>, n: nat, j: nat)
    requires n < |rs| == |seats| && j < |tables|
  {
    && tables[j].minCapacity <= rs[n].partySize <= tables[j].capacity
    && forall i :: 0 <= i < n && seats[i] == Some(tables[j]) ==> rs[i].reservedAt + 7_200_000 <= rs[n].reservedAt
  }

  lemma {:induction false} OpenIffAvailable(tables: seq<Table>, rs: seq<Reservation>, seats: seq<Option<Table>>, n: nat,
                                            j: nat)
    requires Plan(tables) && Sorted(rs) && FirstFit(tables, rs, seats) && n < |rs| && j < |tables|
    ensures Open(tables, rs, seats, n, j) <==> Available(tables[j], rs[n], Bookings(rs[..n], seats[..n]))
  {
    hide Bookings, Busy, FirstFit, Plan;
    BusyIffHeld(tables, rs, seats, n, tables[j]);
    var x := rs[n].reservedAt;
    assert |seats| == |rs| by { SameLength(tables, rs, seats); }
    if i :| 0 <= i < n && seats[i] == Some(tables[j]) && rs[i].reservedAt + SERVICE_MS > x {
      assert Holds(rs, seats, i, tables[j], x);
    }
  }

  lemma {:induction false} SameLength(tables: seq<Table>, rs: seq<Reservation>, seats: seq<Option<Table>>)
    requires FirstFit(tables, rs, seats)
    ensures |seats| == |rs|
  {}

  lemma {:induction false} FirstAvailableIff(tables: seq<Table>, r: Reservation, taken: seq<Booking>, k: nat)
    requires Plan(tables) && k < |tables|
    ensures FirstAvailable(tables, r, taken) == Some(tables[k])
            <==> Available(tables[k], r, taken) && forall j :: 0 <= j < k ==> !Available(tables[j], r, taken)
  {
    hide Available;
    if k > 0 {
      FirstAvailableIff(tables[1..], r, taken, k - 1);
      assert forall j :: 0 < j < k ==> tables[j] == tables[1..][j-1];
    }
  }

  /**
   * Each reservation has the first open table of the plan, if there is one: the list of bookings tells what the seats
   * of the earlier ones do.
   */
  lemma {:induction false} SeatIsFirstOpen(tables: seq<Table>, rs: seq<Reservation>, seats: seq<Option<Table>>, n: nat,
                                           k: nat)
    requires Plan(tables) && Sorted(rs) && FirstFit(tables, rs, seats) && n < |rs| && k < |tables|
    ensures seats[n] == Some(tables[k])
            <==> Open(tables, rs, seats, n, k) && forall j :: 0 <= j < k ==> !Open(tables, rs, seats, n, j)
  {
    hide Open, Available, Bookings;
    var taken := Bookings(rs[..n], seats[..n]);
    forall j | 0 <= j < |tables| ensures Open(tables, rs, seats, n, j) <==> Available(tables[j], rs[n], taken) {
      OpenIffAvailable(tables, rs, seats, n, j);
    }
    assert seats[n] == FirstAvailable(tables, rs[n], taken);
    FirstAvailableIff(tables, rs[n], taken, k);
  }

  /** The table given is a smallest one among those that fit and are free. */
  lemma {:induction false} SmallestFreeTable(tables: seq<Table>, r: Reservation, taken: seq<Booking>)
    requires Plan(tables) && FirstAvailable(tables, r, taken).Some?
    ensures forall u :: u in tables && Available(u, r, taken) ==>
      FirstAvailable(tables, r, taken).value.capacity <= u.capacity
  {
    if !Available(tables[0], r, taken) {
      SmallestFreeTable(tables[1..], r, taken);
    }
  }

  // ----- safety

  /** Any way to seat some of `rs`: tables of the plan that fit, and nobody twice on a table at once. */
  ghost predicate Feasible(tables: seq<Table>, rs: seq<Reservation>, seats: seq<Option<Table>>) {
    && |seats| == |rs|
    && (forall i :: 0 <= i < |rs| && seats[i].Some? ==> seats[i].value in tables && Fits(seats[i].value, rs[i]))
    && (forall i, j :: 0 <= i < j < |rs| && seats[i].Some? && seats[i] == seats[j]
          ==> rs[i].reservedAt + SERVICE_MS <= rs[j].reservedAt)
  }

  /** The loop never double books. */
  lemma {:induction false} PlacementIsFeasible(tables: seq<Table>, rs: seq<Reservation>, seats: seq<Option<Table>>)
    requires Plan(tables) && Sorted(rs) && FirstFit(tables, rs, seats)
    ensures Feasible(tables, rs, seats)
  {
    forall i | 0 <= i < |rs| && seats[i].Some? ensures seats[i].value in tables && Fits(seats[i].value, rs[i]) {
      TableAmongSeats(tables, rs, seats, i);
    }
    forall i, j | 0 <= i < j < |rs| && seats[i].Some? && seats[i] == seats[j]
      ensures rs[i].reservedAt + SERVICE_MS <= rs[j].reservedAt
    {
      TableAmongSeats(tables, rs, seats, j);
      BusyIffHeld(tables, rs, seats, j, seats[j].value);
      assert seats[j] == FirstAvailable(tables, rs[j], Bookings(rs[..j], seats[..j]));
      assert !Holds(rs, seats, i, seats[j].value, rs[j].reservedAt);
    }
  }

  // ----- greedy stays ahead

  /** Starts of the seated reservations, in order. */
  function Starts(rs: seq<Reservation>, seats: seq<Option<Table>>): seq<int>
    requires |rs| == |seats|
  {
    if rs == [] then []
    else Starts(rs[..|rs|-1], seats[..|rs|-1]) + (if seats[|rs|-1].Some? then [rs[|rs|-1].reservedAt] else [])
  }

  function AsReal(x: int): real { x as real }

  /** How many services started at `xs` are still running at `x`. */
  function Running(xs: seq<int>, x: int): (n: nat)
    ensures n <= |xs|
  { if xs == [] then 0 else Running(xs[..|xs|-1], x) + (if xs[|xs|-1] + SERVICE_MS > x then 1 else 0) }

  lemma {:induction false} StartsAscend(rs: seq<Reservation>, seats: seq<Option<Table>>)
    requires Sorted(rs) && |rs| == |seats|
    ensures Ordered(Starts(rs, seats), AsReal)
    ensures forall j :: 0 <= j < |Starts(rs, seats)| ==> rs != [] && Starts(rs, seats)[j] <= rs[|rs|-1].reservedAt
  {
    if |rs| == 1 {
      assert Starts([], []) == [];
    } else if rs != [] {
      StartsAscend(rs[..|rs|-1], seats[..|rs|-1]);
    }
  }

  lemma {:induction false} RunningSnoc(xs: seq<int>, y: int, x: int)
    ensures Running(xs + [y], x) == Running(xs, x) + (if y + SERVICE_MS > x then 1 else 0)
  {
    assert (xs + [y])[..|xs|] == xs;
  }

  /** In ascending order, the running services are the last ones. */
  lemma {:induction false} RunningAreLast(xs: seq<int>, x: int, k: nat)
    requires Ordered(xs, AsReal) && 1 <= k <= |xs|
    ensures xs[|xs|-k] + SERVICE_MS > x <==> Running(xs, x) >= k
  {
    var m := |xs| - 1;
    if xs[m] + SERVICE_MS <= x {
      NoneRunning(xs, x);
    } else if k > 1 {
      RunningAreLast(xs[..m], x, k - 1);
    }
  }

  lemma {:induction false} NoneRunning(xs: seq<int>, x: int)
    requires forall i :: 0 <= i < |xs| ==> xs[i] + SERVICE_MS <= x
    ensures Running(xs, x) == 0
  {
    if xs != [] { NoneRunning(xs[..|xs|-1], x); }
  }

  /** The tables in use at `x`, when every reservation in `rs` has started by then. */
  ghost function InUse(rs: seq<Reservation>, seats: seq<Option<Table>>, x: int): set<Table>
    requires |rs| == |seats|
  {
    if rs == [] then {}
    else
      var m := |rs| - 1;
      InUse(rs[..m], seats[..m], x)
      + (if seats[m].Some? && rs[m].reservedAt + SERVICE_MS > x then {seats[m].value} else {})
  }

  lemma {:induction false} InUseIs(rs: seq<Reservation>, seats: seq<Option<Table>>, x: int, t: Table)
    requires |rs| == |seats|
    ensures t in InUse(rs, seats, x)
            <==> exists i :: 0 <= i < |rs| && seats[i] == Some(t) && rs[i].reservedAt + SERVICE_MS > x
  {
    if rs != [] {
      var m := |rs| - 1;
      InUseIs(rs[..m], seats[..m], x, t);
      assert forall i :: 0 <= i < m ==> seats[..m][i] == seats[i] && rs[..m][i] == rs[i];
    }
  }

  /** Without double booking, running services and tables in use are equally many. */
  lemma {:induction false} OneTableEach(tables: seq<Table>, rs: seq<Reservation>, seats: seq<Option<Table>>, x: int)
    requires Sorted(rs) && Feasible(tables, rs, seats)
    requires forall i :: 0 <= i < |rs| ==> rs[i].reservedAt <= x
    ensures |InUse(rs, seats, x)| == Running(Starts(rs, seats), x)
    ensures forall t :: t in InUse(rs, seats, x) ==> t in tables
  {
    hide Starts, Running, InUse, Feasible;
    PrefixFeasible(tables, rs, seats, 0);
    if rs == [] {
      EmptyCounts(seats, x);
    } else {
      var m := |rs| - 1;
      PrefixFeasible(tables, rs, seats, m);
      OneTableEach(tables, rs[..m], seats[..m], x);
      StartsSnoc(rs, seats);
      InUseSnoc(rs, seats, x);
      var before := Starts(rs[..m], seats[..m]);
      assert before + [] == before;
      if seats[m].Some? {
        RunningSnoc(before, rs[m].reservedAt, x);
        NotYetInUse(tables, rs, seats, x);
      }
    }
  }

  lemma {:induction false} EmptyCounts(seats: seq<Option<Table>>, x: int)
    requires seats == []
    ensures InUse([], seats, x) == {} && Running(Starts([], seats), x) == 0 && Load([], x) == 0
  {}

  lemma {:induction false} StartsSnoc(rs: seq<Reservation>, seats: seq<Option<Table>>)
    requires |rs| == |seats| && rs != []
    ensures var m := |rs| - 1;
            Starts(rs, seats) == Starts(rs[..m], seats[..m]) + (if seats[m].Some? then [rs[m].reservedAt] else [])
  {}

  lemma {:induction false} InUseSnoc(rs: seq<Reservation>, seats: seq<Option<Table>>, x: int)
    requires |rs| == |seats| && rs != []
    ensures var m := |rs| - 1;
            InUse(rs, seats, x)
            == InUse(rs[..m], seats[..m], x)
               + (if seats[m].Some? && rs[m].reservedAt + SERVICE_MS > x then {seats[m].value} else {})
  {}

  /** The table of the last reservation was free when it came. */
  lemma {:induction false} NotYetInUse(tables: seq<Table>, rs: seq<Reservation>, seats: seq<Option<Table>>, x: int)
    requires Feasible(tables, rs, seats) && rs != [] && seats[|rs|-1].Some? && rs[|rs|-1].reservedAt <= x
    ensures seats[|rs|-1].value in tables && seats[|rs|-1].value !in InUse(rs[..|rs|-1], seats[..|rs|-1], x)
  {
    hide Fits, InUse;
    var m := |rs| - 1;
    InUseIs(rs[..m], seats[..m], x, seats[m].value);
    forall i | 0 <= i < m && seats[i] == seats[m] ensures rs[i].reservedAt + SERVICE_MS <= x {
      assert rs[i].reservedAt + SERVICE_MS <= rs[m].reservedAt;
    }
  }

  lemma {:induction false} PrefixFeasible(tables: seq<Table>, rs: seq<Reservation>, seats: seq<Option<Table>>, n: nat)
    requires Feasible(tables, rs, seats) && n <= |rs|
    ensures |rs| == |seats| && Feasible(tables, rs[..n], seats[..n])
  {}

  function TableSet(tables: seq<Table>): set<Table> { set t | t in tables }

  lemma {:induction false} TableSetSize(tables: seq<Table>)
    requires Plan(tables)
    ensures |TableSet(tables)| == |tables|
  {
    if tables != [] {
      TableSetSize(tables[1..]);
      assert TableSet(tables) == {tables[0]} + TableSet(tables[1..]);
      assert tables[0] !in tables[1..];
    }
  }

  lemma {:induction false} SubsetSize<T>(a: set<T>, b: set<T>)
    requires a <= b
    ensures |a| <= |b| && (|a| == |b| ==> a == b)
  {
    assert b == a + (b - a);
  }

  /** A party that some table of the group fits is fitted by exactly the tables of the group. */
  ghost predicate Group(tables: seq<Table>, rs: seq<Reservation>, group: set<Table>) {
    && group <= TableSet(tables)
    && forall r, t, u :: r in rs && t in group && u in tables && Fits(t, r) ==> (Fits(u, r) <==> u in group)
  }

  /** The seats at tables of `group`; the others are left out. */
  function Within(group: set<Table>, seats: seq<Option<Table>>): (r: seq<Option<Table>>)
    ensures |r| == |seats|
    ensures forall i :: 0 <= i < |seats| ==>
      r[i] == if seats[i].Some? && seats[i].value in group then seats[i] else None
  {
    if seats == [] then []
    else
      var last := seats[|seats|-1];
      Within(group, seats[..|seats|-1]) + [if last.Some? && last.value in group then last else None]
  }

  lemma {:induction false} WithinFeasible(tables: seq<Table>, rs: seq<Reservation>, seats: seq<Option<Table>>,
                                          group: set<Table>)
    requires Feasible(tables, rs, seats)
    ensures Feasible(tables, rs, Within(group, seats))
  {}

  lemma {:induction false} InUseWithin(rs: seq<Reservation>, seats: seq<Option<Table>>, group: set<Table>, n: nat,
                                       x: int)
    requires |rs| == |seats| && n <= |rs|
    ensures InUse(rs[..n], Within(group, seats)[..n], x) <= group
  {
    var masked := Within(group, seats);
    forall t | t in InUse(rs[..n], masked[..n], x) ensures t in group {
      InUseIs(rs[..n], masked[..n], x, t);
      var i :| 0 <= i < n && masked[..n][i] == Some(t);
      assert masked[i] == Some(t);
    }
  }

  /** When the loop refuses a party that the group fits, as many of its services are running as it has tables. */
  lemma {:induction false} RefusalMeansFull(tables: seq<Table>, rs: seq<Reservation>, seats: seq<Option<Table>>,
                                            group: set<Table>, n: nat)
    requires Plan(tables) && Sorted(rs) && FirstFit(tables, rs, seats) && n < |rs| && group <= TableSet(tables)
    requires seats[n] == None && forall t :: t in group ==> Fits(t, rs[n])
    ensures Running(Starts(rs[..n], Within(group, seats)[..n]), rs[n].reservedAt) == |group|
  {
    hide FirstFit, Running, Starts, Fits;
    var x := rs[n].reservedAt;
    PlacementIsFeasible(tables, rs, seats);
    var masked := Within(group, seats);
    WithinFeasible(tables, rs, seats, group);
    PrefixFeasible(tables, rs, masked, n);
    OneTableEach(tables, rs[..n], masked[..n], x);
    RefusedIffAllHeld(tables, rs, seats, n);
    InUseWithin(rs, seats, group, n, x);
    forall t | t in group ensures t in InUse(rs[..n], masked[..n], x) {
      assert t in tables;
      var i :| 0 <= i < n && Holds(rs, seats, i, t, x);
      assert masked[..n][i] == seats[i] && rs[..n][i] == rs[i];
      InUseIs(rs[..n], masked[..n], x, t);
    }
    assert InUse(rs[..n], masked[..n], x) == group;
  }

  /** When any assignment seats a party in the group, fewer of its services are running than it has tables. */
  lemma {:induction false} SeatingMeansRoom(tables: seq<Table>, rs: seq<Reservation>, seats: seq<Option<Table>>,
                                            group: set<Table>, n: nat)
    requires Sorted(rs) && Feasible(tables, rs, seats) && n < |rs|
    requires seats[n].Some? && seats[n].value in group
    ensures Running(Starts(rs[..n], Within(group, seats)[..n]), rs[n].reservedAt) < |group|
  {
    hide Running, Starts;
    var x, t, masked := rs[n].reservedAt, seats[n].value, Within(group, seats);
    WithinFeasible(tables, rs, seats, group);
    PrefixFeasible(tables, rs, masked, n);
    OneTableEach(tables, rs[..n], masked[..n], x);
    InUseIs(rs[..n], masked[..n], x, t);
    InUseWithin(rs, seats, group, n, x);
    assert t !in InUse(rs[..n], masked[..n], x);
    SubsetSize(InUse(rs[..n], masked[..n], x) + {t}, group);
  }

  /** The loop's seated starts are as many as, and pairwise no later than, those of any assignment. */
  ghost predicate Ahead(g: seq<int>, f: seq<int>) {
    |f| <= |g| && forall j :: 0 <= j < |f| ==> g[j] <= f[j]
  }

  lemma {:induction false} GroupStaysAhead(tables: seq<Table>, rs: seq<Reservation>, seats: seq<Option<Table>>,
                                           other: seq<Option<Table>>, group: set<Table>, n: nat)
    requires Plan(tables) && Sorted(rs) && FirstFit(tables, rs, seats) && Group(tables, rs, group)
    requires Feasible(tables, rs, other) && n <= |rs| == |seats| == |other|
    ensures Ahead(Starts(rs[..n], Within(group, seats)[..n]), Starts(rs[..n], Within(group, other)[..n]))
  {
    hide FirstFit, Feasible, Running, Starts, Group, Within;
    var mine, theirs := Within(group, seats), Within(group, other);
    if n == 0 {
      NoStarts(rs[..0], mine[..0]);
      NoStarts(rs[..0], theirs[..0]);
    } else {
      var p := n - 1;
      GroupStaysAhead(tables, rs, seats, other, group, p);
      StartsOfPrefix(rs, mine, n);
      StartsOfPrefix(rs, theirs, n);
      StartsAscend(rs[..p], mine[..p]);
      StartsAscend(rs[..p], theirs[..p]);
      if theirs[p].Some? && mine[p].None? { RoomIfRefused(tables, rs, seats, other, group, p); }
      AheadStep(Starts(rs[..p], mine[..p]), Starts(rs[..p], theirs[..p]), rs[p].reservedAt, mine[p].Some?,
        theirs[p].Some?);
    }
  }

  lemma {:induction false} AheadStep(g: seq<int>, f: seq<int>, x: int, seatG: bool, seatF: bool)
    requires Ahead(g, f) && (forall j :: 0 <= j < |g| ==> g[j] <= x)
    requires seatF && !seatG ==> |f| < |g|
    ensures Ahead(g + (if seatG then [x] else []), f + (if seatF then [x] else []))
  {}

  lemma {:induction false} RoomIfRefused(tables: seq<Table>, rs: seq<Reservation>, seats: seq<Option<Table>>,
                                         other: seq<Option<Table>>, group: set<Table>, p: nat)
    requires Plan(tables) && Sorted(rs) && FirstFit(tables, rs, seats) && Group(tables, rs, group)
    requires Feasible(tables, rs, other) && p < |rs| && Within(group, other)[p].Some? && Within(group, seats)[p].None?
    requires Ahead(Starts(rs[..p], Within(group, seats)[..p]), Starts(rs[..p], Within(group, other)[..p]))
    ensures |Starts(rs[..p], Within(group, other)[..p])| < |Starts(rs[..p], Within(group, seats)[..p])|
  {
    hide Running, Starts, Fits, Within, FirstAvailable;
    assert rs[p] in rs && Fits(other[p].value, rs[p]);
    assert forall t :: t in group ==> t in tables && Fits(t, rs[p]);
    if seats[p].Some? {
      TableAmongSeats(tables, rs, seats, p);
      assert false;
    }
    RefusalMeansFull(tables, rs, seats, group, p);
    SeatingMeansRoom(tables, rs, other, group, p);
    StartsAscend(rs[..p], Within(group, seats)[..p]);
    StartsAscend(rs[..p], Within(group, other)[..p]);
    RoomForOneMore(Starts(rs[..p], Within(group, seats)[..p]), Starts(rs[..p], Within(group, other)[..p]),
                   rs[p].reservedAt, |group|);
  }

  lemma {:induction false} NoStarts(rs: seq<Reservation>, seats: seq<Option<Table>>)
    requires rs == [] && seats == []
    ensures Starts(rs, seats) == []
  {}

  lemma {:induction false} StartsOfPrefix(rs: seq<Reservation>, seats: seq<Option<Table>>, n: nat)
    requires |rs| == |seats| && 0 < n <= |rs|
    ensures Starts(rs[..n], seats[..n])
            == Starts(rs[..n-1], seats[..n-1]) + (if seats[n-1].Some? then [rs[n-1].reservedAt] else [])
  {
    assert rs[..n][..n-1] == rs[..n-1] && seats[..n][..n-1] == seats[..n-1];
  }

  /** With all `k` tables busy in `g` but not in `f`, an ahead `g` is strictly longer. */
  lemma {:induction false} RoomForOneMore(g: seq<int>, f: seq<int>, x: int, k: nat)
    requires Ahead(g, f) && Ordered(g, AsReal) && Ordered(f, AsReal)
    requires Running(g, x) == k && Running(f, x) < k
    ensures |f| < |g|
  {
    if |f| == |g| {
      RunningAreLast(g, x, k);
      RunningAreLast(f, x, k);
      assert false;
    }
  }

  function Seated(seats: seq<Option<Table>>): nat {
    if seats == [] then 0 else Seated(seats[..|seats|-1]) + (if seats[|seats|-1].Some? then 1 else 0)
  }

  lemma {:induction false} SeatedIsStarts(rs: seq<Reservation>, seats: seq<Option<Table>>)
    requires |rs| == |seats|
    ensures Seated(seats) == |Starts(rs, seats)|
  {
    if rs != [] { SeatedIsStarts(rs[..|rs|-1], seats[..|rs|-1]); }
  }

  /** No assignment seats more parties at the tables of a group than the loop does. */
  lemma {:induction false} GroupIsOptimal(tables: seq<Table>, rs: seq<Reservation>, seats: seq<Option<Table>>,
                                          other: seq<Option<Table>>, group: set<Table>)
    requires Plan(tables) && Sorted(rs) && FirstFit(tables, rs, seats) && Group(tables, rs, group)
    requires Feasible(tables, rs, other)
    ensures Seated(Within(group, other)) <= Seated(Within(group, seats))
  {
    hide Group, Within;
    var mine, theirs := Within(group, seats), Within(group, other);
    GroupStaysAhead(tables, rs, seats, other, group, |rs|);
    assert rs[..|rs|] == rs && mine[..|rs|] == mine && theirs[..|rs|] == theirs;
    SeatedIsStarts(rs, mine);
    SeatedIsStarts(rs, theirs);
  }

  lemma {:induction false} WithinAll(tables: seq<Table>, rs: seq<Reservation>, seats: seq<Option<Table>>)
    requires Feasible(tables, rs, seats)
    ensures Within(TableSet(tables), seats) == seats
  {}

  // ----- interchangeable tables

  /** Every party fits all tables or none. */
  ghost predicate Interchangeable(tables: seq<Table>, rs: seq<Reservation>) {
    forall r, t, u :: r in rs && t in tables && u in tables ==> Fits(t, r) == Fits(u, r)
  }

  lemma {:induction false} OneGroup(tables: seq<Table>, rs: seq<Reservation>)
    requires Interchangeable(tables, rs)
    ensures Group(tables, rs, TableSet(tables))
  {
    hide Fits;
  }

  lemma {:induction false} GreedyStaysAhead(tables: seq<Table>, rs: seq<Reservation>, seats: seq<Option<Table>>,
                                            other: seq<Option<Table>>, n: nat)
    requires Plan(tables) && Sorted(rs) && FirstFit(tables, rs, seats) && Interchangeable(tables, rs)
    requires Feasible(tables, rs, other) && n <= |rs| == |seats| == |other|
    ensures Ahead(Starts(rs[..n], seats[..n]), Starts(rs[..n], other[..n]))
  {
    hide FirstFit, Feasible, Starts, Interchangeable;
    OneGroup(tables, rs);
    PlacementIsFeasible(tables, rs, seats);
    WithinAll(tables, rs, seats);
    WithinAll(tables, rs, other);
    GroupStaysAhead(tables, rs, seats, other, TableSet(tables), n);
  }

  /** With interchangeable tables, no assignment seats more parties than the loop does. */
  lemma {:induction false} GreedyIsOptimal(tables: seq<Table>, rs: seq<Reservation>, seats: seq<Option<Table>>,
                                           other: seq<Option<Table>>)
    requires Plan(tables) && Sorted(rs) && FirstFit(tables, rs, seats) && Interchangeable(tables, rs)
    requires Feasible(tables, rs, other)
    ensures Seated(other) <= Seated(seats)
  {
    hide FirstFit, Feasible, Interchangeable;
    OneGroup(tables, rs);
    PlacementIsFeasible(tables, rs, seats);
    WithinAll(tables, rs, seats);
    WithinAll(tables, rs, other);
    GroupIsOptimal(tables, rs, seats, other, TableSet(tables));
  }

  // ----- who is skipped

  /** How many reservations cover the instant `x`. */
  function Load(rs: seq<Reservation>, x: int): nat {
    if rs == [] then 0
    else Load(rs[..|rs|-1], x) + (if rs[|rs|-1].reservedAt <= x < rs[|rs|-1].reservedAt + SERVICE_MS then 1 else 0)
  }

  lemma {:induction false} LoadIsRunning(rs: seq<Reservation>, seats: seq<Option<Table>>, x: int)
    requires |rs| == |seats| && forall i :: 0 <= i < |rs| ==> rs[i].reservedAt <= x
    ensures Running(Starts(rs, seats), x) <= Load(rs, x)
    ensures (forall i :: 0 <= i < |rs| ==> seats[i].Some?) ==> Running(Starts(rs, seats), x) == Load(rs, x)
  {
    hide Starts, Running;
    if rs == [] {
      EmptyCounts(seats, x);
    } else {
      var m := |rs| - 1;
      LoadIsRunning(rs[..m], seats[..m], x);
      StartsSnoc(rs, seats);
      var before := Starts(rs[..m], seats[..m]);
      assert before + [] == before;
      RunningSnoc(before, rs[m].reservedAt, x);
      assert forall i :: 0 <= i < m ==> seats[..m][i] == seats[i];
    }
  }

  lemma {:induction false} LoadOfPrefix(rs: seq<Reservation>, n: nat, x: int)
    requires n <= |rs|
    ensures Load(rs[..n], x) <= Load(rs, x)
    ensures (forall i :: n <= i < |rs| ==> rs[i].reservedAt > x) ==> Load(rs[..n], x) == Load(rs, x)
  {
    if n == |rs| {
      assert rs[..n] == rs;
    } else {
      LoadOfPrefix(rs[..|rs|-1], n, x);
      assert rs[..|rs|-1][..n] == rs[..n];
    }
  }

  /** How many reservations have started by `x`. */
  function StartedBy(rs: seq<Reservation>, x: int): (n: nat)
    requires Sorted(rs)
    ensures n <= |rs| && (forall i :: 0 <= i < n ==> rs[i].reservedAt <= x)
    ensures forall i :: n <= i < |rs| ==> rs[i].reservedAt > x
  {
    if rs == [] then 0
    else if rs[|rs|-1].reservedAt <= x then |rs|
    else StartedBy(rs[..|rs|-1], x)
  }

  lemma {:induction false} OverloadIfRefused(tables: seq<Table>, rs: seq<Reservation>, seats: seq<Option<Table>>,
                                             n: nat)
    requires Plan(tables) && Sorted(rs) && FirstFit(tables, rs, seats) && n < |rs| && seats[n].None?
    requires forall t :: t in tables ==> Fits(t, rs[n])
    ensures Load(rs, rs[n].reservedAt) > |tables|
  {
    hide FirstFit, Running, Starts, Load, Fits, Plan, Within;
    var x := rs[n].reservedAt;
    PlacementIsFeasible(tables, rs, seats);
    WithinAll(tables, rs, seats);
    RefusalMeansFull(tables, rs, seats, TableSet(tables), n);
    TableSetSize(tables);
    LoadIsRunning(rs[..n], seats[..n], x);
    LoadOfCovering(rs, n);
  }

  /** A reservation adds itself to the load of those before it. */
  lemma {:induction false} LoadOfCovering(rs: seq<Reservation>, n: nat)
    requires n < |rs|
    ensures Load(rs, rs[n].reservedAt) > Load(rs[..n], rs[n].reservedAt)
  {
    assert rs[..n+1][..n] == rs[..n];
    LoadOfPrefix(rs, n + 1, rs[n].reservedAt);
  }

  lemma {:induction false} LoadFitsIfAllSeated(tables: seq<Table>, rs: seq<Reservation>, seats: seq<Option<Table>>,
                                               x: int)
    requires Plan(tables) && Sorted(rs) && FirstFit(tables, rs, seats)
    requires forall n :: 0 <= n < |rs| ==> seats[n].Some?
    ensures Load(rs, x) <= |tables|
  {
    hide FirstFit;
    var n := StartedBy(rs, x);
    LoadOfPrefix(rs, n, x);
    assert |seats| == |rs| by { PlacementIsFeasible(tables, rs, seats); }
    LoadIsRunning(rs[..n], seats[..n], x);
    PlacementIsFeasible(tables, rs, seats);
    PrefixFeasible(tables, rs, seats, n);
    OneTableEach(tables, rs[..n], seats[..n], x);
    SubsetSize(InUse(rs[..n], seats[..n], x), TableSet(tables));
    TableSetSize(tables);
  }

  /**
   * With tables that fit everyone, nobody is skipped exactly when no instant is covered by more parties than
   * tables.
   */
  lemma {:induction false} NobodySkippedIff(tables: seq<Table>, rs: seq<Reservation>, seats: seq<Option<Table>>)
    requires Plan(tables) && Sorted(rs) && FirstFit(tables, rs, seats)
    requires forall r, t :: r in rs && t in tables ==> Fits(t, r)
    ensures (forall n :: 0 <= n < |rs| ==> seats[n].Some?) <==> (forall x :: Load(rs, x) <= |tables|)
  {
    hide Load, Fits, FirstAvailable;
    if n :| 0 <= n < |rs| && seats[n].None? {
      assert rs[n] in rs;
      OverloadIfRefused(tables, rs, seats, n);
    } else {
      forall x ensures Load(rs, x) <= |tables| { LoadFitsIfAllSeated(tables, rs, seats, x); }
    }
  }

  /** Tables that differ break optimality: the small table goes to a pair, and the single guest is refused. */
  lemma {:induction false} GreedyMayLoseAParty()
      returns (tables: seq<Table>, rs: seq<Reservation>, seats: seq<Option<Table>>, other: seq<Option<Table>>)
    ensures Plan(tables) && Sorted(rs) && FirstFit(tables, rs, seats) && Feasible(tables, rs, other)
    ensures Seated(seats) < Seated(other)
  {
    hide Busy;
    var a, b := Table(1, 2, 1), Table(2, 4, 2);
    var p, q := Reservation(0, 2), Reservation(0, 1);
    tables, rs, seats, other := [a, b], [p, q], [Some(a), None], [Some(b), Some(a)];
    assert rs[..0] == [] && seats[..0] == [] && rs[..1] == [p] && seats[..1] == [Some(a)];
    assert Bookings([p], [Some(a)]) == [BookingFor(a, p)] by { assert [p][..0] == [] && [Some(a)][..0] == []; }
    BusyWhenBooked(a, p);
    assert !Busy(a, [], 0) by { FreeAtFirst(a); }
    assert Available(a, p, []) && FirstAvailable(tables, p, []) == Some(a);
    assert !Takes(b, 1) && !Fits(b, q);
    assert !Available(a, q, [BookingFor(a, p)]) && !Available(b, q, [BookingFor(a, p)]);
    assert FirstAvailable(tables, q, [BookingFor(a, p)]) == None;
    assert other[..1] == [Some(b)] && seats[..1] == [Some(a)];
    OneSeated(a);
    OneSeated(b);
  }

  lemma {:induction false} OneSeated(t: Table)
    ensures Seated([Some(t)]) == 1
  {
    assert [Some(t)][..0] == [];
  }

  lemma {:induction false} BusyWhenBooked(t: Table, r: Reservation)
    ensures Busy(t, [BookingFor(t, r)], r.reservedAt)
  {
    assert Overlaps(BookingFor(t, r), r.reservedAt, r.reservedAt + SERVICE_MS);
  }

  lemma {:induction false} FreeAtFirst(t: Table)
    ensures forall x :: !Busy(t, [], x)
  {}
}
