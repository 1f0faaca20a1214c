/**
 * When the greedy placement (apps/api/seed.ts) is optimal: exactly on plans where any
 * two tables that can take a common party can take all the same parties.
 */
module TableGroups {
  import opened Wrappers
  import opened TablePlacement

  /** No list of reservations on which some assignment seats more parties than the loop does. */
  ghost predicate AlwaysOptimal(tables: seq<Table>) {
    forall rs, seats, other :: Sorted(rs) && FirstFit(tables, rs, seats) && Feasible(tables, rs, other)
      ==> Seated(other) <= Seated(seats)
  }

  /** Some party fits both tables. */
  predicate ShareParty(t: Table, u: Table) {
    && t.minCapacity <= t.capacity && t.minCapacity <= u.capacity
    && u.minCapacity <= t.capacity && u.minCapacity <= u.capacity
  }

  predicate SameRange(t: Table, u: Table) { t.minCapacity == u.minCapacity && t.capacity == u.capacity }

  /** Any two tables take the same parties, or none in common. */
  ghost predicate Graded(tables: seq<Table>) {
    forall t, u :: t in tables && u in tables && ShareParty(t, u) ==> SameRange(t, u)
  }

  /** Any two sizes of party that share a table share all their tables. */
  ghost predicate SizesAgree(tables: seq<Table>) {
    forall p: nat, q: nat, t, u :: t in tables && Takes(t, p) && Takes(t, q) && u in tables && Takes(u, p)
      ==> Takes(u, q)
  }

  /** The condition on tables and the condition on sizes of party are the same. */
  lemma {:induction false} GradedIffSizesAgree(tables: seq<Table>)
    ensures Graded(tables) <==> SizesAgree(tables)
  {
    if SizesAgree(tables) {
      forall t, u | t in tables && u in tables && ShareParty(t, u) ensures SameRange(t, u) {
        var p := if t.minCapacity >= u.minCapacity then t.minCapacity else u.minCapacity;
        assert Takes(t, p) && Takes(u, p);
        assert Takes(t, t.minCapacity) && Takes(t, t.capacity) && Takes(u, u.minCapacity) && Takes(u, u.capacity);
      }
    }
    if Graded(tables) {
      forall p: nat, q: nat, t, u | t in tables && Takes(t, p) && Takes(t, q) && u in tables && Takes(u, p)
        ensures Takes(u, q)
      {
        assert ShareParty(t, u);
      }
    }
  }

  // ----- graded plans: the groups do not compete

  /** No table outside `s` takes a party of a table in `s`. */
  ghost predicate Closed(tables: seq<Table>, s: set<Table>) {
    s <= TableSet(tables) && forall t, u :: t in s && u in tables && ShareParty(t, u) ==> u in s
  }

  ghost function GroupOf(s: set<Table>, t: Table): set<Table> { set u | u in s && (u == t || ShareParty(t, u)) }

  lemma {:induction false} GroupsAreGroups(tables: seq<Table>, rs: seq<Reservation>, s: set<Table>, t: Table)
    requires Graded(tables) && Closed(tables, s) && t in s
    ensures Group(tables, rs, GroupOf(s, t)) && Closed(tables, s - GroupOf(s, t))
  {
    var g := GroupOf(s, t);
    forall r, v, u | r in rs && v in g && u in tables && Fits(v, r) ensures Fits(u, r) <==> u in g {
      if Fits(u, r) { assert ShareParty(v, u); }
    }
    forall v, u | v in s - g && u in tables && ShareParty(v, u) ensures u in s - g {
      assert u in g && u != t ==> SameRange(t, u);
    }
  }

  /** Seats at two disjoint sets of tables add up. */
  lemma {:induction false} SeatedSplit(s: set<Table>, g: set<Table>, seats: seq<Option<Table>>)
    requires g <= s
    ensures Seated(Within(s, seats)) == Seated(Within(g, seats)) + Seated(Within(s - g, seats))
  {
    if seats != [] { SeatedSplit(s, g, seats[..|seats|-1]); }
  }

  lemma {:induction false} NobodyWithin(seats: seq<Option<Table>>)
    ensures Seated(Within({}, seats)) == 0
  {
    if seats != [] { NobodyWithin(seats[..|seats|-1]); }
  }

  /** On a closed set of tables the loop is optimal, group by group. */
  lemma {:induction false} ClosedIsOptimal(tables: seq<Table>, rs: seq<Reservation>, seats: seq<Option<Table>>,
                                           other: seq<Option<Table>>, s: set<Table>)
    requires Plan(tables) && Sorted(rs) && FirstFit(tables, rs, seats) && Feasible(tables, rs, other)
    requires Graded(tables) && Closed(tables, s)
    ensures Seated(Within(s, other)) <= Seated(Within(s, seats))
    decreases s
  {
    hide Plan, Sorted, FirstFit, Feasible, Graded, Closed, Group, Within, Seated;
    if s == {} {
      NobodyWithin(other);
    } else {
      var t := Member(s);
      var g := GroupOf(s, t);
      GroupsAreGroups(tables, rs, s, t);
      GroupIsOptimal(tables, rs, seats, other, g);
      assert t in g && g <= s && s - g < s;
      ClosedIsOptimal(tables, rs, seats, other, s - g);
      SeatedSplit(s, g, seats);
      SeatedSplit(s, g, other);
    }
  }

  lemma {:induction false} GradedIsOptimal(tables: seq<Table>)
    requires Plan(tables) && Graded(tables)
    ensures AlwaysOptimal(tables)
  {
    hide Plan, Sorted, FirstFit, Feasible, Graded, Within, Seated;
    assert Closed(tables, TableSet(tables));
    forall rs, seats, other | Sorted(rs) && FirstFit(tables, rs, seats) && Feasible(tables, rs, other)
      ensures Seated(other) <= Seated(seats)
    {
      ClosedIsOptimal(tables, rs, seats, other, TableSet(tables));
      PlacementIsFeasible(tables, rs, seats);
      WithinAll(tables, rs, seats);
      WithinAll(tables, rs, other);
    }
  }

  // ----- other plans: a list of reservations on which the loop loses a party

  /** What the loop does on `rs`. */
  function Greedy(tables: seq<Table>, rs: seq<Reservation>): (seats: seq<Option<Table>>)
    ensures |seats| == |rs| && FirstFit(tables, rs, seats)
  {
    if rs == [] then []
    else
      var before, r := rs[..|rs|-1], rs[|rs|-1];
      var seats := Greedy(tables, before);
      var table := FirstAvailable(tables, r, Bookings(before, seats));
      ExtendFirstFit(tables, before, seats, r, table);
      assert before + [r] == rs;
      seats + [table]
  }

  lemma {:induction false} GreedyStep(tables: seq<Table>, rs: seq<Reservation>)
    requires rs != []
    ensures |Greedy(tables, rs)| == |rs| && Greedy(tables, rs)[..|rs|-1] == Greedy(tables, rs[..|rs|-1])
  {
    hide FirstAvailable, Bookings;
  }

  /** The loop does not look ahead. */
  lemma {:induction false} GreedyPrefix(tables: seq<Table>, rs: seq<Reservation>, more: seq<Reservation>)
    ensures Greedy(tables, rs + more)[..|rs|] == Greedy(tables, rs)
  {
    hide Greedy, FirstAvailable, Bookings;
    var all := rs + more;
    if more == [] {
      assert all == rs;
    } else {
      var front := rs + more[..|more|-1];
      GreedyPrefix(tables, rs, more[..|more|-1]);
      assert all[..|all|-1] == front;
      GreedyStep(tables, all);
      assert Greedy(tables, all)[..|front|][..|rs|] == Greedy(tables, all)[..|rs|];
    }
  }

  /** Everybody seated, at these tables in order. */
  function Somes(ts: seq<Table>): (r: seq<Option<Table>>)
    ensures |r| == |ts| && forall i :: 0 <= i < |ts| ==> r[i] == Some(ts[i])
  { if ts == [] then [] else Somes(ts[..|ts|-1]) + [Some(ts[|ts|-1])] }

  lemma {:induction false} SeatedAll(seats: seq<Option<Table>>)
    ensures Seated(seats) <= |seats|
    ensures Seated(seats) == |seats| <==> forall i :: 0 <= i < |seats| ==> seats[i].Some?
  {
    if seats != [] {
      var front := seats[..|seats|-1];
      SeatedAll(front);
      assert forall i :: 0 <= i < |front| ==> front[i] == seats[i];
    }
  }

  ghost predicate Distinct(ts: seq<Table>) { forall i, j :: 0 <= i < j < |ts| ==> ts[i] != ts[j] }

  lemma {:induction false} Enumerate(s: set<Table>) returns (ts: seq<Table>)
    ensures Distinct(ts) && |ts| == |s| && TableSet(ts) == s
    decreases s
  {
    if s == {} {
      ts := [];
    } else {
      var t := Member(s);
      var rest := Enumerate(s - {t});
      ts := rest + [t];
      assert forall i :: 0 <= i < |rest| ==> rest[i] in TableSet(rest);
      assert TableSet(ts) == TableSet(rest) + {t};
    }
  }

  lemma {:induction false} DistinctSize(ts: seq<Table>)
    requires Distinct(ts)
    ensures |TableSet(ts)| == |ts|
  {
    if ts != [] {
      var front, last := ts[..|ts|-1], ts[|ts|-1];
      DistinctSize(front);
      assert TableSet(ts) == TableSet(front) + {last};
      assert last !in front;
    }
  }

  /** `count` parties of one size, all at one time. */
  function Block(count: nat, time: int, size: nat): (rs: seq<Reservation>)
    ensures |rs| == count && forall i :: 0 <= i < count ==> rs[i] == Reservation(time, size)
  { if count == 0 then [] else Block(count - 1, time, size) + [Reservation(time, size)] }

  ghost function Taking(tables: seq<Table>, n: nat): set<Table> { set t | t in tables && Takes(t, n) }

  /** The tables that take `m` but not `n`. */
  ghost function OnlyTaking(tables: seq<Table>, m: nat, n: nat): set<Table> { Taking(tables, m) - Taking(tables, n) }

  /** Parties of size `m` first, for which there is room beside the tables of `n`; then `n` fills all of its own. */
  ghost function Together(tables: seq<Table>, m: nat, n: nat): seq<Reservation> {
    Block(|OnlyTaking(tables, m, n)|, 0, m) + Block(|Taking(tables, n)|, 0, n)
  }

  /** The same with one more party of size `m`, which must still sit when those of size `n` arrive. */
  ghost function Staggered(tables: seq<Table>, m: nat, n: nat): seq<Reservation> {
    Block(|OnlyTaking(tables, m, n)|, 0, m) + [Reservation(1, m)] + Block(|Taking(tables, n)|, SERVICE_MS, n)
  }

  ghost predicate AllSeated(seats: seq<Option<Table>>) { forall i :: 0 <= i < |seats| ==> seats[i].Some? }

  /** The tables of seats `lo` to `hi`. */
  ghost function At(seats: seq<Option<Table>>, lo: nat, hi: nat): seq<Table>
    requires AllSeated(seats) && lo <= hi <= |seats|
  { seq(hi - lo, i requires 0 <= i < hi - lo => seats[lo + i].value) }

  /** Parties of one size that all sit at once have different tables, all of which take them. */
  lemma {:induction false} BlockTables(tables: seq<Table>, rs: seq<Reservation>, seats: seq<Option<Table>>,
                                       lo: nat, hi: nat, time: int, size: nat)
    requires Feasible(tables, rs, seats) && AllSeated(seats) && lo <= hi <= |rs|
    requires forall i :: lo <= i < hi ==> rs[i] == Reservation(time, size)
    ensures TableSet(At(seats, lo, hi)) <= Taking(tables, size) && |TableSet(At(seats, lo, hi))| == hi - lo
  {
    var ts := At(seats, lo, hi);
    forall i, j | 0 <= i < j < |ts| ensures ts[i] != ts[j] {
      assert rs[lo + i].reservedAt == rs[lo + j].reservedAt;
    }
    DistinctSize(ts);
  }

  /** If everybody together gets a table, the first parties sit at exactly the tables that only they can take. */
  lemma {:induction false} FirstSitApart(tables: seq<Table>, m: nat, n: nat, seats: seq<Option<Table>>)
    requires Feasible(tables, Together(tables, m, n), seats) && AllSeated(seats)
    ensures TableSet(At(seats, 0, |OnlyTaking(tables, m, n)|)) == OnlyTaking(tables, m, n)
  {
    hide Takes, Feasible, At, TableSet;
    var rs, d := Together(tables, m, n), |OnlyTaking(tables, m, n)|;
    SameLength(tables, rs, seats);
    BlockTables(tables, rs, seats, 0, d, 0, m);
    BlockTables(tables, rs, seats, d, |rs|, 0, n);
    var head, tail := TableSet(At(seats, 0, d)), TableSet(At(seats, d, |rs|));
    SubsetSize(tail, Taking(tables, n));
    AtOnceApart(tables, rs, seats, d);
    assert head <= OnlyTaking(tables, m, n);
    SubsetSize(head, OnlyTaking(tables, m, n));
  }

  lemma {:induction false} SameLength(tables: seq<Table>, rs: seq<Reservation>, seats: seq<Option<Table>>)
    requires Feasible(tables, rs, seats)
    ensures |rs| == |seats|
  {}

  /** Parties that all come at once share no table. */
  lemma {:induction false} AtOnceApart(tables: seq<Table>, rs: seq<Reservation>, seats: seq<Option<Table>>, d: nat)
    requires Feasible(tables, rs, seats) && AllSeated(seats) && d <= |rs|
    requires forall i :: 0 <= i < |rs| ==> rs[i].reservedAt == 0
    ensures TableSet(At(seats, 0, d)) !! TableSet(At(seats, d, |rs|))
  {
    var head, tail := At(seats, 0, d), At(seats, d, |rs|);
    forall i, j | 0 <= i < d && 0 <= j < |tail| ensures head[i] != tail[j] {
      assert rs[i].reservedAt + SERVICE_MS > rs[d + j].reservedAt;
    }
  }

  /** If everybody staggered gets a table, the extra party sits apart too: those of `n` need all of their own. */
  lemma {:induction false} ExtraSitsApart(tables: seq<Table>, m: nat, n: nat, seats: seq<Option<Table>>)
    requires Feasible(tables, Staggered(tables, m, n), seats) && AllSeated(seats)
    ensures seats[|OnlyTaking(tables, m, n)|].value in OnlyTaking(tables, m, n)
  {
    hide Takes;
    var rs, d := Staggered(tables, m, n), |OnlyTaking(tables, m, n)|;
    var x, tail := seats[d].value, At(seats, d + 1, |rs|);
    assert rs[d] == Reservation(1, m);
    BlockTables(tables, rs, seats, d + 1, |rs|, SERVICE_MS, n);
    SubsetSize(TableSet(tail), Taking(tables, n));
    forall j | 0 <= j < |tail| ensures tail[j] != x {
      assert rs[d].reservedAt + SERVICE_MS > rs[d + 1 + j].reservedAt;
    }
    assert x !in TableSet(tail);
  }

  /** But it cannot sit where the first parties still are. */
  lemma {:induction false} ExtraSitsElsewhere(tables: seq<Table>, m: nat, n: nat, seats: seq<Option<Table>>)
    requires Feasible(tables, Staggered(tables, m, n), seats) && AllSeated(seats)
    ensures seats[|OnlyTaking(tables, m, n)|].value !in TableSet(At(seats, 0, |OnlyTaking(tables, m, n)|))
  {
    hide Takes;
    var rs, d := Staggered(tables, m, n), |OnlyTaking(tables, m, n)|;
    var head := At(seats, 0, d);
    assert rs[d] == Reservation(1, m);
    forall i | 0 <= i < d ensures head[i] != seats[d].value {
      assert rs[i].reservedAt + SERVICE_MS > rs[d].reservedAt;
    }
  }

  /** Everybody can be seated when they come together. */
  lemma {:induction false} TogetherFits(tables: seq<Table>, m: nat, n: nat) returns (other: seq<Option<Table>>)
    ensures Feasible(tables, Together(tables, m, n), other) && Seated(other) == |other| == |Together(tables, m, n)|
  {
    hide Takes, Feasible, Together, Distinct, OnlyTaking, Taking, Seated;
    var apart := Enumerate(OnlyTaking(tables, m, n));
    var own := Enumerate(Taking(tables, n));
    other := Somes(apart + own);
    SeatedAll(other);
    forall i | 0 <= i < |apart| ensures apart[i] in OnlyTaking(tables, m, n) { assert apart[i] in TableSet(apart); }
    forall i | 0 <= i < |own| ensures own[i] in Taking(tables, n) { assert own[i] in TableSet(own); }
    TogetherSeats(tables, m, n, apart, own);
  }

  lemma {:induction false} TogetherSeats(tables: seq<Table>, m: nat, n: nat, apart: seq<Table>, own: seq<Table>)
    requires Distinct(apart) && |apart| == |OnlyTaking(tables, m, n)|
    requires Distinct(own) && |own| == |Taking(tables, n)|
    requires forall i :: 0 <= i < |apart| ==> apart[i] in OnlyTaking(tables, m, n)
    requires forall i :: 0 <= i < |own| ==> own[i] in Taking(tables, n)
    ensures Feasible(tables, Together(tables, m, n), Somes(apart + own)) && |Together(tables, m, n)| == |apart + own|
  {
    hide Takes, Taking, OnlyTaking;
    var rs, ts := Together(tables, m, n), apart + own;
    forall i | 0 <= i < |ts| ensures ts[i] in tables && Fits(ts[i], rs[i]) {
      NotBoth(tables, m, n, ts[i]);
    }
    forall i, j | 0 <= i < j < |ts| ensures ts[i] != ts[j] {
      NotBoth(tables, m, n, ts[i]);
    }
  }

  /** And when they come staggered: an early party takes a shared table, and leaves it in time. */
  lemma {:induction false} StaggeredFits(tables: seq<Table>, m: nat, n: nat, w: Table)
      returns (other: seq<Option<Table>>)
    requires w in tables && Takes(w, m) && Takes(w, n) && OnlyTaking(tables, m, n) != {}
    ensures Feasible(tables, Staggered(tables, m, n), other) && Seated(other) == |other| == |Staggered(tables, m, n)|
  {
    hide Takes, Feasible, Staggered, Distinct, OnlyTaking, Seated;
    var d := |OnlyTaking(tables, m, n)|;
    var apart := Enumerate(OnlyTaking(tables, m, n));
    var own := Enumerate(Taking(tables, n));
    var ts := [w] + apart[1..] + [apart[0]] + own;
    other := Somes(ts);
    SeatedAll(other);
    Positions(w, apart, own);
    forall i | 0 <= i < d ensures apart[i] in OnlyTaking(tables, m, n) { assert apart[i] in TableSet(apart); }
    forall i | 0 <= i < |own| ensures own[i] in Taking(tables, n) { assert own[i] in TableSet(own); }
    StaggeredSeats(tables, m, n, ts, apart, own);
  }

  lemma {:induction false} Positions(w: Table, apart: seq<Table>, own: seq<Table>)
    requires apart != []
    ensures var ts := [w] + apart[1..] + [apart[0]] + own;
            && |ts| == |apart| + 1 + |own| && ts[0] == w && ts[|apart|] == apart[0]
            && (forall i :: 0 < i < |apart| ==> ts[i] == apart[i])
            && (forall i :: |apart| < i < |ts| ==> ts[i] == own[i - |apart| - 1])
  {}

  lemma {:induction false} StaggeredSeats(tables: seq<Table>, m: nat, n: nat, ts: seq<Table>, apart: seq<Table>,
                                          own: seq<Table>)
    requires Distinct(apart) && |apart| == |OnlyTaking(tables, m, n)| > 0
    requires Distinct(own) && |own| == |Taking(tables, n)|
    requires forall i :: 0 <= i < |apart| ==> apart[i] in OnlyTaking(tables, m, n)
    requires forall i :: 0 <= i < |own| ==> own[i] in Taking(tables, n)
    requires |ts| == |apart| + 1 + |own| && ts[|apart|] == apart[0]
    requires ts[0] in Taking(tables, m) && ts[0] in Taking(tables, n)
    requires forall i :: 0 < i < |apart| ==> ts[i] == apart[i]
    requires forall i :: |apart| < i < |ts| ==> ts[i] == own[i - |apart| - 1]
    ensures Feasible(tables, Staggered(tables, m, n), Somes(ts)) && |Staggered(tables, m, n)| == |ts|
  {
    hide Takes, Taking, OnlyTaking;
    var rs, d := Staggered(tables, m, n), |apart|;
    forall i | 0 <= i < |ts| ensures ts[i] in tables && Fits(ts[i], rs[i]) {
      NotBoth(tables, m, n, ts[i]);
    }
    forall i, j | 0 <= i < j < |ts| && ts[i] == ts[j] ensures rs[i].reservedAt + SERVICE_MS <= rs[j].reservedAt {
      NotBoth(tables, m, n, ts[j]);
    }
  }

  lemma {:induction false} NotBoth(tables: seq<Table>, m: nat, n: nat, t: Table)
    ensures t in Taking(tables, m) ==> t in tables && Takes(t, m)
    ensures t in Taking(tables, n) ==> t in tables && Takes(t, n)
    ensures t in OnlyTaking(tables, m, n) ==> t in Taking(tables, m) && t !in Taking(tables, n)
  {}

  /** If two sizes of party share a table, but not all that the one can take, the loop loses a party on some list. */
  lemma {:induction false} LoopLoses(tables: seq<Table>, m: nat, n: nat, w: Table, v: Table)
    returns (rs: seq<Reservation>, other: seq<Option<Table>>)
    requires Plan(tables) && w in tables && Takes(w, m) && Takes(w, n)
    requires v in tables && Takes(v, m) && !Takes(v, n)
    ensures Sorted(rs) && Feasible(tables, rs, other) && Seated(Greedy(tables, rs)) < Seated(other)
  {
    hide Takes, FirstFit, Greedy, Seated, Plan, Feasible, Sorted, Together, Staggered;
    assert v in OnlyTaking(tables, m, n);
    InOrder(tables, m, n);
    var d := |OnlyTaking(tables, m, n)|;
    var together, staggered := Together(tables, m, n), Staggered(tables, m, n);
    var seats1, seats2 := Greedy(tables, together), Greedy(tables, staggered);
    PlacementIsFeasible(tables, together, seats1);
    PlacementIsFeasible(tables, staggered, seats2);
    SeatedAll(seats1);
    SeatedAll(seats2);
    if !AllSeated(seats1) {
      rs := together;
      other := TogetherFits(tables, m, n);
    } else {
      rs := staggered;
      other := StaggeredFits(tables, m, n, w);
      FirstSitApart(tables, m, n, seats1);
      SameStart(tables, m, n);
      if AllSeated(seats2) {
        assert At(seats2, 0, d) == At(seats1, 0, d);
        ExtraSitsApart(tables, m, n, seats2);
        ExtraSitsElsewhere(tables, m, n, seats2);
        assert false;
      }
    }
  }

  lemma {:induction false} InOrder(tables: seq<Table>, m: nat, n: nat)
    ensures Sorted(Together(tables, m, n)) && Sorted(Staggered(tables, m, n))
    ensures |Together(tables, m, n)| >= |OnlyTaking(tables, m, n)|
            && |Staggered(tables, m, n)| > |OnlyTaking(tables, m, n)|
  {
    hide Taking, OnlyTaking;
  }

  /** The first parties of the two lists are the same, and are given the same tables. */
  lemma {:induction false} SameStart(tables: seq<Table>, m: nat, n: nat)
    ensures var d := |OnlyTaking(tables, m, n)|;
            forall i :: 0 <= i < d
              ==> Greedy(tables, Together(tables, m, n))[i] == Greedy(tables, Staggered(tables, m, n))[i]
  {
    hide Takes, Greedy;
    var d := |OnlyTaking(tables, m, n)|;
    var first, rest, later := Block(d, 0, m), Block(|Taking(tables, n)|, 0, n),
      Block(|Taking(tables, n)|, SERVICE_MS, n);
    GreedyPrefix(tables, first, rest);
    GreedyPrefix(tables, first, [Reservation(1, m)] + later);
    assert Staggered(tables, m, n) == first + ([Reservation(1, m)] + later);
    assert forall i :: 0 <= i < d ==> Greedy(tables, first + rest)[i] == Greedy(tables, first + rest)[..d][i];
  }

  /** Main result: the loop is optimal on every list of reservations exactly when the plan is graded. */
  lemma {:induction false} OptimalIffGraded(tables: seq<Table>)
    requires Plan(tables)
    ensures AlwaysOptimal(tables) <==> Graded(tables)
  {
    hide Plan, Sorted, FirstFit, Feasible, Graded, Seated, Takes, Greedy;
    if Graded(tables) {
      GradedIsOptimal(tables);
    } else {
      GradedIffSizesAgree(tables);
      var p: nat, q: nat, t, u :| t in tables && Takes(t, p) && Takes(t, q) && u in tables && Takes(u, p)
        && !Takes(u, q);
      var rs, other := LoopLoses(tables, p, q, t, u);
      assert FirstFit(tables, rs, Greedy(tables, rs));
    }
  }
}
