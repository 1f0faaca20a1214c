/** Token edit distance and word error rate (nb-normalize.ts). */
module EditDistance {
  import opened Wrappers
  import FrenchNumbers
  import Normalizer
  import Phrases
  import SpelledLetters
  import Texts

  function Init(s: seq<Token>): seq<Token>
    requires s != []
  { s[..|s|-1] }

  function Last(s: seq<Token>): Token
    requires s != []
  { s[|s|-1] }

  function Cost(x: Token, y: Token): nat { if x == y then 0 else 1 }

  /** The recurrence of the dynamic programme, on whole lists. */
  function Lev(a: seq<Token>, b: seq<Token>): nat
    decreases |a| + |b|
  {
    if a == [] then |b|
    else if b == [] then |a|
    else Min(Min(Lev(Init(a), b) + 1, Lev(a, Init(b)) + 1),
             Lev(Init(a), Init(b)) + Cost(Last(a), Last(b)))
  }

  // ----- the loop

  /** `row` holds the distances from `a` to every prefix of `b` shorter than `upTo`. */
  ghost predicate IsRow(row: seq<nat>, a: seq<Token>, b: seq<Token>, upTo: nat) {
    upTo <= |row| == |b| + 1 && forall j :: 0 <= j < upTo ==> row[j] == Lev(a, b[..j])
  }

  method TokenEditDistance(reference: seq<Token>, hypothesis: seq<Token>) returns (distance: nat)
    ensures distance == Lev(reference, hypothesis)
  {
    hide Lev;
    FirstRow(reference, hypothesis);
    var rows, columns := |reference|, |hypothesis|;
    var previous := new nat[columns + 1](i => i);
    for row := 1 to rows + 1
      invariant IsRow(previous[..], reference[..row-1], hypothesis, columns + 1)
    {
      var current := new nat[columns + 1](_ => 0);
      current[0] := row;
      for column := 1 to columns + 1
        invariant IsRow(previous[..], reference[..row-1], hypothesis, columns + 1)
        invariant IsRow(current[..], reference[..row], hypothesis, column)
      {
        var cost := if reference[row-1] == hypothesis[column-1] then 0 else 1;
        var best := Min(Min(previous[column] + 1, current[column-1] + 1), previous[column-1] + cost);
        ExtendRow(previous[..], current[..], reference, hypothesis, row, column);
        ghost var was := current[..];
        current[column] := best;
        assert current[..] == was[column := best];
      }
      previous := current;
    }
    assert reference[..rows] == reference && hypothesis[..columns] == hypothesis;
    distance := previous[columns];
  }

  /** The empty prefix on either side. */
  lemma {:induction false} FirstRow(a: seq<Token>, b: seq<Token>)
    ensures forall j :: 0 <= j <= |b| ==> Lev([], b[..j]) == j
    ensures forall i :: 0 <= i <= |a| ==> Lev(a[..i], []) == i
  {}

  lemma {:induction false} ExtendRow(above: seq<nat>, row: seq<nat>, a: seq<Token>, b: seq<Token>, i: nat, j: nat)
    requires 1 <= i <= |a| && 1 <= j <= |b|
    requires IsRow(above, a[..i-1], b, |b| + 1) && IsRow(row, a[..i], b, j)
    ensures IsRow(row[j := Min(Min(above[j] + 1, row[j-1] + 1), above[j-1] + Cost(a[i-1], b[j-1]))], a[..i], b, j + 1)
  {
    hide Lev;
    LevCell(a, b, i, j);
    assert above[j] == Lev(a[..i-1], b[..j]) && above[j-1] == Lev(a[..i-1], b[..j-1])
      && row[j-1] == Lev(a[..i], b[..j-1]);
  }

  lemma {:induction false} LevCell(a: seq<Token>, b: seq<Token>, i: nat, j: nat)
    requires 1 <= i <= |a| && 1 <= j <= |b|
    ensures Lev(a[..i], b[..j]) == Min(Min(Lev(a[..i-1], b[..j]) + 1, Lev(a[..i], b[..j-1]) + 1),
                                       Lev(a[..i-1], b[..j-1]) + Cost(a[i-1], b[j-1]))
  {
    hide Lev, Min, Cost;
    assert Init(a[..i]) == a[..i-1] && Init(b[..j]) == b[..j-1];
    LevUnfold(a[..i], b[..j]);
  }

  lemma {:induction false} LevUnfold(a: seq<Token>, b: seq<Token>)
    requires a != [] && b != []
    ensures Lev(a, b) == Min(Min(Lev(Init(a), b) + 1, Lev(a, Init(b)) + 1),
                             Lev(Init(a), Init(b)) + Cost(Last(a), Last(b)))
  {
    hide Min, Cost;
  }

  // ----- alignments: a certificate that one list can be turned into another

  datatype Alignment =
    | Empty
    | Keep(before: Alignment, x: Token)
    | Substitute(before: Alignment, x: Token, y: Token)
    | Insert(before: Alignment, y: Token)
    | Delete(before: Alignment, x: Token)
  {
    function Source(): seq<Token> {
      match this
      case Empty => []
      case Keep(p, x) => p.Source() + [x]
      case Substitute(p, x, _) => p.Source() + [x]
      case Insert(p, _) => p.Source()
      case Delete(p, x) => p.Source() + [x]
    }

    function Target(): seq<Token> {
      match this
      case Empty => []
      case Keep(p, x) => p.Target() + [x]
      case Substitute(p, _, y) => p.Target() + [y]
      case Insert(p, y) => p.Target() + [y]
      case Delete(p, _) => p.Target()
    }

    function Edits(): nat {
      match this
      case Empty => 0
      case Keep(p, _) => p.Edits()
      case Substitute(p, _, _) => p.Edits() + 1
      case Insert(p, _) => p.Edits() + 1
      case Delete(p, _) => p.Edits() + 1
    }
  }

  predicate Aligns(s: Alignment, a: seq<Token>, b: seq<Token>) { s.Source() == a && s.Target() == b }

  lemma {:induction false} LevEmpty(a: seq<Token>)
    ensures Lev(a, []) == |a| && Lev([], a) == |a|
  {}

  /** One more token costs at most one edit on either side, and on both sides what substituting it costs. */
  lemma {:induction false} LevSnoc(a: seq<Token>, b: seq<Token>, x: Token, y: Token)
    ensures Lev(a, b + [y]) <= Lev(a, b) + 1
    ensures Lev(a + [x], b) <= Lev(a, b) + 1
    ensures Lev(a + [x], b + [y]) <= Lev(a, b) + Cost(x, y)
  {
    hide Lev, Cost;
    assert Init(a + [x]) == a && Init(b + [y]) == b && Last(a + [x]) == x && Last(b + [y]) == y;
    LevUnfold(a + [x], b + [y]);
    if a == [] {
      LevEmpty(b);
      LevEmpty(b + [y]);
    } else {
      LevUnfold(a, b + [y]);
    }
    if b == [] {
      LevEmpty(a);
      LevEmpty(a + [x]);
    } else {
      LevUnfold(a + [x], b);
    }
  }

  /** No alignment beats the recurrence. */
  lemma {:induction false} LevIsLowerBound(s: Alignment)
    ensures Lev(s.Source(), s.Target()) <= s.Edits()
  {
    hide Lev;
    match s
    case Empty => LevEmpty([]);
    case Keep(p, x) =>
      LevIsLowerBound(p);
      LevSnoc(p.Source(), p.Target(), x, x);
    case Substitute(p, x, y) =>
      LevIsLowerBound(p);
      LevSnoc(p.Source(), p.Target(), x, y);
    case Insert(p, y) =>
      LevIsLowerBound(p);
      LevSnoc(p.Source(), p.Target(), y, y);
    case Delete(p, x) =>
      LevIsLowerBound(p);
      LevSnoc(p.Source(), p.Target(), x, x);
  }

  /** Some alignment attains the recurrence. */
  lemma {:induction false} BestAlignment(a: seq<Token>, b: seq<Token>) returns (s: Alignment)
    ensures Aligns(s, a, b) && s.Edits() == Lev(a, b)
    decreases |a| + |b|
  {
    if a == [] || b == [] {
      s := AllOneSided(a, b);
    } else {
      assert a == Init(a) + [Last(a)] && b == Init(b) + [Last(b)];
      if Lev(a, b) == Lev(Init(a), b) + 1 {
        var p := BestAlignment(Init(a), b);
        s := Delete(p, Last(a));
      } else if Lev(a, b) == Lev(a, Init(b)) + 1 {
        var p := BestAlignment(a, Init(b));
        s := Insert(p, Last(b));
      } else {
        var p := BestAlignment(Init(a), Init(b));
        s := if Last(a) == Last(b) then Keep(p, Last(a)) else Substitute(p, Last(a), Last(b));
      }
    }
  }

  lemma {:induction false} AllOneSided(a: seq<Token>, b: seq<Token>) returns (s: Alignment)
    requires a == [] || b == []
    ensures Aligns(s, a, b) && s.Edits() == |a| + |b|
    decreases |a| + |b|
  {
    if a != [] {
      var p := AllOneSided(Init(a), b);
      s := Delete(p, Last(a));
    } else if b != [] {
      var p := AllOneSided(a, Init(b));
      s := Insert(p, Last(b));
    } else {
      s := Empty;
    }
  }

  function Flip(s: Alignment): (r: Alignment)
    ensures r.Source() == s.Target() && r.Target() == s.Source() && r.Edits() == s.Edits()
  {
    match s
    case Empty => Empty
    case Keep(p, x) => Keep(Flip(p), x)
    case Substitute(p, x, y) => Substitute(Flip(p), y, x)
    case Insert(p, y) => Delete(Flip(p), y)
    case Delete(p, x) => Insert(Flip(p), x)
  }

  /** Running one alignment after another costs no more than the two together. */
  lemma {:induction false} Compose(s: Alignment, t: Alignment) returns (r: Alignment)
    requires s.Target() == t.Source()
    ensures Aligns(r, s.Source(), t.Target()) && r.Edits() <= s.Edits() + t.Edits()
    decreases s, t
  {
    if s.Delete? {
      r := Compose(s.before, t);
      r := Delete(r, s.x);
    } else if t.Insert? {
      r := Compose(s, t.before);
      r := Insert(r, t.y);
    } else if s.Empty? {
      r := Empty;
    } else {
      assert s.before.Target() == Init(s.Target()) && t.before.Source() == Init(t.Source());
      assert Last(s.Target()) == Last(t.Source());
      r := Compose(s.before, t.before);
      r := ComposeLast(s, t, r);
    }
  }

  /** The last columns of two alignments, where each has one token in common with the other. */
  function ComposeLast(s: Alignment, t: Alignment, r: Alignment): Alignment
    requires s.Keep? || s.Substitute? || s.Insert?
    requires t.Keep? || t.Substitute? || t.Delete?
  {
    if s.Insert? then (if t.Delete? then r else Insert(r, if t.Keep? then t.x else t.y))
    else if t.Delete? then Delete(r, s.x)
    else if s.Keep? && t.Keep? then Keep(r, s.x)
    else Substitute(r, s.x, if t.Keep? then t.x else t.y)
  }

  // ----- metric laws

  lemma {:induction false} LevTriangle(a: seq<Token>, b: seq<Token>, c: seq<Token>)
    ensures Lev(a, c) <= Lev(a, b) + Lev(b, c)
  {
    var s := BestAlignment(a, b);
    var t := BestAlignment(b, c);
    var r := Compose(s, t);
    LevIsLowerBound(r);
  }

  lemma {:induction false} LevSymmetric(a: seq<Token>, b: seq<Token>)
    ensures Lev(a, b) == Lev(b, a)
  {
    var s := BestAlignment(a, b);
    var t := BestAlignment(b, a);
    LevIsLowerBound(Flip(s));
    LevIsLowerBound(Flip(t));
  }

  lemma {:induction false} LevZeroIffEqual(a: seq<Token>, b: seq<Token>)
    ensures Lev(a, b) == 0 <==> a == b
    decreases |a|
  {
    if a != [] && b != [] {
      LevZeroIffEqual(Init(a), Init(b));
      assert a == Init(a) + [Last(a)] && b == Init(b) + [Last(b)];
    }
  }

  lemma {:induction false} LevBounds(a: seq<Token>, b: seq<Token>)
    ensures |a| <= |b| + Lev(a, b) && |b| <= |a| + Lev(a, b) && Lev(a, b) <= Max(|a|, |b|)
    decreases |a| + |b|
  {
    if a != [] && b != [] {
      LevBounds(Init(a), b);
      LevBounds(a, Init(b));
      LevBounds(Init(a), Init(b));
    }
  }

  // ----- single edits at any position

  predicate SingleEdit(a: seq<Token>, b: seq<Token>) {
    || (exists i :: 0 <= i < |a| && b == a[..i] + a[i+1..])
    || (exists i :: 0 <= i < |b| && a == b[..i] + b[i+1..])
    || (exists i :: 0 <= i < |a| == |b| && b == a[i := b[i]])
  }

  /** A list of lists, each one single edit away from the one before. */
  ghost predicate EditChain(chain: seq<seq<Token>>) {
    chain != [] && forall k :: 0 <= k < |chain| - 1 ==> SingleEdit(chain[k], chain[k+1])
  }

  ghost predicate ChainFromTo(chain: seq<seq<Token>>, a: seq<Token>, b: seq<Token>) {
    EditChain(chain) && chain[0] == a && chain[|chain|-1] == b
  }

  function KeepAll(a: seq<Token>): (s: Alignment)
    ensures Aligns(s, a, a) && s.Edits() == 0
  { if a == [] then Empty else Keep(KeepAll(Init(a)), Last(a)) }

  /** An alignment of `p` and `q` extended by keeping the tokens of `tail`. */
  function KeepTail(s: Alignment, tail: seq<Token>): (r: Alignment)
    ensures Aligns(r, s.Source() + tail, s.Target() + tail) && r.Edits() == s.Edits()
  { if tail == [] then s
    else
      assert s.Source() + Init(tail) + [Last(tail)] == s.Source() + tail;
      assert s.Target() + Init(tail) + [Last(tail)] == s.Target() + tail;
      Keep(KeepTail(s, Init(tail)), Last(tail)) }

  lemma {:induction false} SingleEditCostsOne(a: seq<Token>, b: seq<Token>)
    requires SingleEdit(a, b)
    ensures Lev(a, b) <= 1
  {
    hide Lev, KeepAll;
    if i :| 0 <= i < |a| && b == a[..i] + a[i+1..] {
      DropCostsOne(a, i);
    } else if i :| 0 <= i < |b| && a == b[..i] + b[i+1..] {
      DropCostsOne(b, i);
      LevSymmetric(a, b);
    } else {
      var i :| 0 <= i < |a| == |b| && b == a[i := b[i]];
      ChangeCostsOne(a, i, b[i]);
    }
  }

  lemma {:induction false} DropCostsOne(a: seq<Token>, i: nat)
    requires i < |a|
    ensures Lev(a, a[..i] + a[i+1..]) <= 1
  {
    hide Lev;
    assert a == a[..i] + [a[i]] + a[i+1..];
    OneColumn(Delete(KeepAll(a[..i]), a[i]), a[i+1..]);
  }

  lemma {:induction false} ChangeCostsOne(a: seq<Token>, i: nat, y: Token)
    requires i < |a|
    ensures Lev(a, a[i := y]) <= 1
  {
    hide Lev;
    assert a == a[..i] + [a[i]] + a[i+1..] && a[i := y] == a[..i] + [y] + a[i+1..];
    OneColumn(Substitute(KeepAll(a[..i]), a[i], y), a[i+1..]);
  }

  lemma {:induction false} OneColumn(s: Alignment, tail: seq<Token>)
    requires s.Edits() <= 1
    ensures Lev(s.Source() + tail, s.Target() + tail) <= 1
  {
    LevIsLowerBound(KeepTail(s, tail));
  }

  lemma {:induction false} ChainIsNoShorter(chain: seq<seq<Token>>)
    requires EditChain(chain)
    ensures Lev(chain[0], chain[|chain|-1]) <= |chain| - 1
  {
    var n := |chain|;
    if n == 1 {
      LevZeroIffEqual(chain[0], chain[0]);
    } else {
      var front := chain[..n-1];
      assert EditChain(front) by {
        forall k | 0 <= k < n - 2 ensures SingleEdit(front[k], front[k+1]) {
          assert SingleEdit(chain[k], chain[k+1]);
        }
      }
      ChainIsNoShorter(front);
      assert SingleEdit(chain[n-2], chain[n-2+1]);
      SingleEditCostsOne(chain[n-2], chain[n-1]);
      LevTriangle(chain[0], chain[n-2], chain[n-1]);
    }
  }

  /** The chain an alignment stands for: its edits carried out from left to right. */
  lemma {:induction false} ChainOf(s: Alignment, tail: seq<Token>) returns (chain: seq<seq<Token>>)
    ensures ChainFromTo(chain, s.Source() + tail, s.Target() + tail)
    ensures |chain| == s.Edits() + 1
  {
    hide SingleEdit, EditChain;
    match s
    case Empty =>
      chain := [tail];
      assert EditChain(chain) by { OneIsChain(tail); }
      assert s.Source() + tail == tail && s.Target() + tail == tail;
    case Keep(p, x) =>
      chain := ChainOf(p, [x] + tail);
      Shift(p.Source(), x, tail);
      Shift(p.Target(), x, tail);
    case Substitute(p, x, y) =>
      var c := ChainOf(p, [x] + tail);
      Shift(p.Source(), x, tail);
      OneEdit(p.Target(), x, y, tail);
      chain := Extend(c, p.Target() + [y] + tail);
    case Insert(p, y) =>
      var c := ChainOf(p, tail);
      OneEdit(p.Target(), y, y, tail);
      chain := Extend(c, p.Target() + [y] + tail);
    case Delete(p, x) =>
      var c := ChainOf(p, [x] + tail);
      Shift(p.Source(), x, tail);
      OneEdit(p.Target(), x, x, tail);
      chain := Extend(c, p.Target() + tail);
  }

  lemma {:induction false} OneIsChain(a: seq<Token>)
    ensures EditChain([a])
  {}

  lemma {:induction false} Shift(a: seq<Token>, x: Token, tail: seq<Token>)
    ensures a + ([x] + tail) == a + [x] + tail
  {}

  /** Substituting, inserting and deleting one token between `a` and `tail`. */
  lemma {:induction false} OneEdit(a: seq<Token>, x: Token, y: Token, tail: seq<Token>)
    ensures SingleEdit(a + ([x] + tail), a + [y] + tail)
    ensures SingleEdit(a + tail, a + [y] + tail) && SingleEdit(a + ([x] + tail), a + tail)
  {
    var with, changed, without, i := a + ([x] + tail), a + [y] + tail, a + tail, |a|;
    assert changed[i] == y && changed == with[i := changed[i]];
    assert without == with[..i] + with[i+1..] && without == changed[..i] + changed[i+1..];
  }

  lemma {:induction false} Extend(chain: seq<seq<Token>>, v: seq<Token>) returns (r: seq<seq<Token>>)
    requires EditChain(chain) && SingleEdit(chain[|chain|-1], v)
    ensures EditChain(r) && r[0] == chain[0] && r[|r|-1] == v && |r| == |chain| + 1
  {
    r := chain + [v];
    forall k | 0 <= k < |r| - 1 ensures SingleEdit(r[k], r[k+1]) {
      if k < |chain| - 1 { assert SingleEdit(chain[k], chain[k+1]); }
    }
  }

  /** Main result: the distance is the length of a shortest chain of single edits. */
  lemma {:induction false} LevIsShortestChain(a: seq<Token>, b: seq<Token>)
    ensures exists chain :: ChainFromTo(chain, a, b) && |chain| - 1 == Lev(a, b)
    ensures forall chain :: ChainFromTo(chain, a, b) ==> Lev(a, b) <= |chain| - 1
  {
    var s := BestAlignment(a, b);
    var chain := ChainOf(s, []);
    assert a + [] == a && b + [] == b;
    forall chain | ChainFromTo(chain, a, b) ensures Lev(a, b) <= |chain| - 1 {
      ChainIsNoShorter(chain);
    }
  }

  // ----- word error rate

  datatype Wer = Wer(wer: real, distance: nat, referenceLength: nat)

  function WerOf(reference: seq<Token>, hypothesis: seq<Token>): Wer {
    var distance := Lev(reference, hypothesis);
    Wer(if |reference| == 0 then 0.0 else distance as real / |reference| as real, distance, |reference|)
  }

  /** The normalised tokens of a text; `fold` stands for lower-casing and accent removal. */
  function TokensOf(fold: string -> string, text: string): seq<Token> {
    Normalizer.Normalize(Phrases.Split(fold(text)))
  }

  method WordErrorRate(fold: string -> string, reference: string, hypothesis: string) returns (r: Wer)
    ensures r == WerOf(TokensOf(fold, reference), TokensOf(fold, hypothesis))
  {
    hide Lev;
    var refTokens := Normalizer.NormalizeTokens(Phrases.Split(fold(reference)));
    var hypTokens := Normalizer.NormalizeTokens(Phrases.Split(fold(hypothesis)));
    var distance := TokenEditDistance(refTokens, hypTokens);
    r := Wer(if |refTokens| == 0 then 0.0 else distance as real / |refTokens| as real, distance, |refTokens|);
  }

  /**
   * The distance is that of a shortest chain of single edits, the length that of the reference, and the rate is
   * their quotient, or 0 when there is no reference.
   */
  lemma {:induction false} WerIs(reference: seq<Token>, hypothesis: seq<Token>)
    ensures var r := WerOf(reference, hypothesis);
            && r.referenceLength == |reference|
            && (exists chain :: ChainFromTo(chain, reference, hypothesis) && |chain| - 1 == r.distance)
            && (forall chain :: ChainFromTo(chain, reference, hypothesis) ==> r.distance <= |chain| - 1)
            && (reference == [] ==> r.wer == 0.0)
            && (reference != [] ==> r.wer * |reference| as real == r.distance as real)
  {
    hide Lev, ChainFromTo;
    LevIsShortestChain(reference, hypothesis);
    if reference != [] { QuotientTimes(Lev(reference, hypothesis) as real, |reference| as real); }
  }

  /** A text of normalised characters has the tokens it is joined from. */
  lemma {:induction false} TokensOfJoin(fold: string -> string, ts: seq<Token>)
    requires Phrases.Tokens(ts) && forall s :: Phrases.Plain(s) ==> fold(s) == s
    ensures TokensOf(fold, Texts.JoinSpaces(ts)) == Normalizer.Normalize(ts)
  {
    hide Normalizer.Normalize, Phrases.Split, Phrases.Tokens, Phrases.Plain;
    Phrases.JoinIsPlain(ts);
    Phrases.SplitJoin(ts);
  }

  /**
   * A number scores the same in words and in figures, as reference and as hypothesis, whatever the other text and
   * whatever comes behind it.
   */
  lemma {:induction false} WordsAndFiguresScoreAlike(fold: string -> string, number: seq<Token>, v: nat,
                                                     rest: seq<Token>, other: string)
    requires forall s :: Phrases.Plain(s) ==> fold(s) == s
    requires FrenchNumbers.ParseNumber(number) == Some(FrenchNumbers.Number(v))
    requires Phrases.Tokens(rest) && Normalizer.EndsNumber(SpelledLetters.Join(rest))
    ensures var words := TokensOf(fold, Texts.JoinSpaces(number + rest));
            var figures := TokensOf(fold, Texts.JoinSpaces([FrenchNumbers.Decimal(v)] + rest));
            && WerOf(words, TokensOf(fold, other)) == WerOf(figures, TokensOf(fold, other))
            && WerOf(TokensOf(fold, other), words) == WerOf(TokensOf(fold, other), figures)
            && WerOf(words, figures).wer == 0.0
  {
    hide Phrases.Plain, Normalizer.Normalize, FrenchNumbers.ParseNumber, WerOf, TokensOf, FrenchNumbers.Decimal;
    hide Normalizer.EndsNumber;
    AcceptedAreTokens(number, v, rest);
    TokensOfJoin(fold, number + rest);
    TokensOfJoin(fold, [FrenchNumbers.Decimal(v)] + rest);
    Normalizer.WordsAndFiguresAgree(number, FrenchNumbers.Number(v), rest);
    assert FrenchNumbers.Written(FrenchNumbers.Number(v)) == FrenchNumbers.Decimal(v);
    WerZeroIff(TokensOf(fold, Texts.JoinSpaces(number + rest)), TokensOf(fold, Texts.JoinSpaces(number + rest)));
  }

  lemma {:induction false} AcceptedAreTokens(number: seq<Token>, v: nat, rest: seq<Token>)
    requires FrenchNumbers.ParseNumber(number) == Some(FrenchNumbers.Number(v)) && Phrases.Tokens(rest)
    ensures Phrases.Tokens(number + rest) && Phrases.Tokens([FrenchNumbers.Decimal(v)] + rest)
  {
    hide FrenchNumbers.ParseNumber, FrenchNumbers.NumberWord;
    FrenchNumbers.NumbersAreWords(number);
    forall i | 0 <= i < |number| ensures Phrases.IsToken(number[i]) {
      if FrenchNumbers.NumberWord(number[i]) { FrenchNumbers.WordsAreLetters(number[i]); }
    }
    Phrases.WrittenIsToken(FrenchNumbers.Number(v));
  }

  lemma {:induction false} QuotientTimes(d: real, n: real)
    requires n > 0.0
    ensures d / n * n == d
  {}

  /** A zero rate means a perfect transcript, or no reference at all. */
  lemma {:induction false} WerZeroIff(reference: seq<Token>, hypothesis: seq<Token>)
    ensures WerOf(reference, hypothesis).wer == 0.0 <==> reference == hypothesis || reference == []
  {
    LevZeroIffEqual(reference, hypothesis);
  }

  lemma {:induction false} QuotientAboveOne(d: real, n: real)
    requires n > 0.0
    ensures d / n > 1.0 <==> d > n
  {
    var q := d / n;
    assert q * n == d;
    if q > 1.0 { assert q * n > 1.0 * n; } else { assert q * n <= 1.0 * n; }
  }

  /** A rate above one needs a longer hypothesis, and any hypothesis over twice as long has one. */
  lemma {:induction false} WerAboveOne(reference: seq<Token>, hypothesis: seq<Token>)
    ensures WerOf(reference, hypothesis).wer > 1.0 ==> |hypothesis| > |reference|
    ensures reference != [] && |hypothesis| > 2 * |reference| ==> WerOf(reference, hypothesis).wer > 1.0
  {
    LevBounds(reference, hypothesis);
    if reference != [] {
      QuotientAboveOne(Lev(reference, hypothesis) as real, |reference| as real);
    }
  }
}
