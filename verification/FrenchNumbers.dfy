/**
 * French number words (nb-normalize.ts): the recursive parser, its accepted
 * language as a finite grammar, and the greedy four-token scan.
 */
module FrenchNumbers {
  import opened Wrappers

  const UNITS: map<Token, nat> := map[
    "zero" := 0, "un" := 1, "une" := 1, "deux" := 2, "trois" := 3, "quatre" := 4,
    "cinq" := 5, "six" := 6, "sept" := 7, "huit" := 8, "neuf" := 9, "dix" := 10,
    "onze" := 11, "douze" := 12, "treize" := 13, "quatorze" := 14, "quinze" := 15, "seize" := 16]

  const TENS: map<Token, nat> := map[
    "vingt" := 20, "trente" := 30, "quarante" := 40, "cinquante" := 50, "soixante" := 60]

  /** The one key in lower-case letters that both tables inherit: looked up, it is the function `Object`. */
  const INHERITED: Token := "constructor"

  /** That function as text. */
  const OBJECT_TEXT: string := "function Object() { [native code] }"

  /** What the parser returns: a number, or the inherited function, perhaps with a digit appended to its text. */
  datatype Value = Number(n: nat) | Inherited(digit: Option<nat>)
  {
    predicate Valid() {
      match this
      case Number(n) => n <= 99
      case Inherited(d) => d.Some? ==> 1 <= d.value <= 9
    }
  }

  predicate NumberWord(w: Token) { w in UNITS || w in TENS || w == INHERITED }

  function At(ts: seq<Token>, i: nat): Token { if i < |ts| then ts[i] else "" }

  // ----- the parser

  /** The table of tens, with what it inherits. */
  function Tens(w: Token): Option<Value> {
    if w in TENS then Some(Number(TENS[w])) else if w == INHERITED then Some(Inherited(None)) else None
  }

  /** `base + unit`, for a unit between `lo` and `hi`; comparing the function or a text with a number is false. */
  function Plus(base: Value, unit: Option<Value>, lo: nat, hi: nat): Option<Value> {
    if unit.Some? && unit.value.Number? && lo <= unit.value.n <= hi then Some(Add(base, unit.value.n)) else None
  }

  /** Adding to the function appends to its text. */
  function Add(base: Value, unit: nat): Value {
    match base
    case Number(n) => Number(n + unit)
    case Inherited(_) => Inherited(Some(unit))
  }

  /** A list of two tokens or more never reads as a number below seventeen, and no list as one above 99. */
  function ParseNumber(ts: seq<Token>): (v: Option<Value>)
    ensures v.Some? ==> ts != [] && v.value.Valid() && (|ts| >= 2 && v.value.Number? ==> v.value.n >= 17)
    decreases |ts|
  {
    if ts == [] then None
    else
      var first, rest := ts[0], ts[1..];
      if first == "quatre" && At(rest, 0) == "vingt" then
        var after := rest[1..];
        if At(after, 0) == "dix" then
          if |after| == 1 then Some(Number(90)) else Plus(Number(90), ParseNumber(after[1..]), 1, 9)
        else if after == [] then Some(Number(80))
        else Plus(Number(80), ParseNumber(after), 1, 9)
      else if first == "dix" && |rest| == 1 && rest[0] in UNITS && 7 <= UNITS[rest[0]] <= 9 then
        Some(Number(10 + UNITS[rest[0]]))
      else if Tens(first).Some? then
        var base := Tens(first).value;
        if rest == [] then Some(base)
        else if rest[0] == "et" then Plus(base, ParseNumber(rest[1..]), 1, 9)
        else if base == Number(60) && rest[0] == "dix" then
          if |rest| == 1 then Some(Number(70)) else Plus(Number(70), ParseNumber(rest[1..]), 1, 6)
        else Plus(base, ParseNumber(rest), 1, 9)
      else if first in UNITS && rest == [] then Some(Number(UNITS[first]))
      else None
  }

  // ----- its language

  predicate Unit(w: Token, lo: nat, hi: nat) { w in UNITS && lo <= UNITS[w] <= hi }

  /** The finite grammar of accepted lists and their values. */
  predicate Denotes(ts: seq<Token>, v: Value) {
    || (|ts| == 1 && ts[0] in UNITS && v == Number(UNITS[ts[0]]))
    || (|ts| == 1 && Tens(ts[0]) == Some(v))
    || (|ts| == 2 && ts[0] == "dix" && Unit(ts[1], 7, 9) && v == Number(10 + UNITS[ts[1]]))
    || (|ts| == 2 && Tens(ts[0]).Some? && Unit(ts[1], 1, 9) && v == Add(Tens(ts[0]).value, UNITS[ts[1]]))
    || (|ts| == 3 && Tens(ts[0]).Some? && ts[1] == "et" && Unit(ts[2], 1, 9)
        && v == Add(Tens(ts[0]).value, UNITS[ts[2]]))
    || (ts == ["soixante", "dix"] && v == Number(70))
    || (|ts| == 3 && ts[..2] == ["soixante", "dix"] && Unit(ts[2], 1, 6) && v == Number(70 + UNITS[ts[2]]))
    || (ts == ["quatre", "vingt"] && v == Number(80))
    || (|ts| == 3 && ts[..2] == ["quatre", "vingt"] && Unit(ts[2], 1, 9) && v == Number(80 + UNITS[ts[2]]))
    || (ts == ["quatre", "vingt", "dix"] && v == Number(90))
    || (|ts| == 4 && ts[..3] == ["quatre", "vingt", "dix"] && Unit(ts[3], 1, 9) && v == Number(90 + UNITS[ts[3]]))
  }

  lemma {:induction false} WordTables()
    ensures UNITS.Keys !! TENS.Keys && "et" !in UNITS && "et" !in TENS && INHERITED !in UNITS && INHERITED !in TENS
    ensures "dix" in UNITS && UNITS["dix"] == 10 && "quatre" in UNITS && UNITS["quatre"] == 4
    ensures forall w :: w in TENS ==> TENS[w] >= 20
    ensures forall w :: w in TENS && TENS[w] == 60 ==> w == "soixante"
    ensures "soixante" in TENS && TENS["soixante"] == 60 && "vingt" in TENS && TENS["vingt"] == 20
  {}

  lemma {:induction false} ParseOne(w: Token)
    ensures ParseNumber([w]) == if Tens(w).Some? then Tens(w) else if w in UNITS then Some(Number(UNITS[w])) else None
  {}

  lemma {:induction false} OneWordIsNumber(w: Token)
    ensures ParseNumber([w]).Some? <==> NumberWord(w)
  {
    ParseOne(w);
  }

  /** A tail that reads as 1 to 9 is one unit word. */
  lemma {:induction false} SmallTail(ts: seq<Token>, lo: nat, hi: nat, base: Value, v: Value)
    requires 1 <= lo <= hi <= 9
    ensures Plus(base, ParseNumber(ts), lo, hi) == Some(v)
            <==> |ts| == 1 && Unit(ts[0], lo, hi) && v == Add(base, UNITS[ts[0]])
  {
    hide ParseNumber, Add;
    if |ts| == 1 {
      assert ts == [ts[0]];
      ParseOne(ts[0]);
      WordTables();
    }
  }

  /** The parser accepts exactly the grammar. */
  lemma {:induction false} ParseIffDenotes(ts: seq<Token>, v: Value)
    ensures ParseNumber(ts) == Some(v) <==> Denotes(ts, v)
  {
    WordTables();
    if ts != [] {
      var first, rest := ts[0], ts[1..];
      if first == "quatre" && At(rest, 0) == "vingt" {
        ParseQuatreVingt(ts, v);
      } else if Tens(first).Some? {
        ParseFromTens(ts, v);
      } else {
        assert |ts| > 2 ==> ParseNumber(ts) == None;
      }
    }
  }

  lemma {:induction false} ParseQuatreVingt(ts: seq<Token>, v: Value)
    requires |ts| >= 2 && ts[0] == "quatre" && ts[1] == "vingt"
    ensures ParseNumber(ts) == Some(v) <==> Denotes(ts, v)
  {
    WordTables();
    var after := ts[1..][1..];
    assert after == ts[2..];
    SmallTail(after, 1, 9, Number(80), v);
    if after != [] {
      assert after[1..] == ts[3..];
      SmallTail(ts[3..], 1, 9, Number(90), v);
    }
    assert |ts| <= 4 ==> ts[..2] == ["quatre", "vingt"];
  }

  /** The branch for tens, taken for itself. */
  lemma {:induction false} TensBranch(ts: seq<Token>)
    requires ts != [] && Tens(ts[0]).Some?
    ensures var base := Tens(ts[0]).value;
            ParseNumber(ts) == if |ts| == 1 then Some(base)
                               else if ts[1] == "et" then Plus(base, ParseNumber(ts[2..]), 1, 9)
                               else if base == Number(60) && ts[1] == "dix" then
                                 if |ts| == 2 then Some(Number(70)) else Plus(Number(70), ParseNumber(ts[2..]), 1, 6)
                               else Plus(base, ParseNumber(ts[1..]), 1, 9)
  {
    hide Plus;
    WordTables();
    if |ts| > 1 { assert ts[1..][1..] == ts[2..]; }
  }

  lemma {:induction false} ParseFromTens(ts: seq<Token>, v: Value)
    requires ts != [] && Tens(ts[0]).Some?
    ensures ParseNumber(ts) == Some(v) <==> Denotes(ts, v)
  {
    hide ParseNumber, Plus, Add;
    WordTables();
    TensBranch(ts);
    var base := Tens(ts[0]).value;
    SmallTail(ts[1..], 1, 9, base, v);
    if |ts| > 1 {
      SmallTail(ts[2..], 1, 9, base, v);
      SmallTail(ts[2..], 1, 6, Number(70), v);
      AddSeventy();
    }
  }

  lemma {:induction false} AddSeventy()
    ensures forall u: nat :: Add(Number(70), u) == Number(70 + u)
  {}

  // ----- which numbers have a spelling

  const UNIT_WORDS: seq<Token> := ["zero", "un", "deux", "trois", "quatre", "cinq", "six", "sept", "huit",
    "neuf", "dix", "onze", "douze", "treize", "quatorze", "quinze", "seize"]

  const TENS_WORDS: seq<Token> := ["vingt", "trente", "quarante", "cinquante", "soixante"]

  function Spell(v: nat): seq<Token>
    requires v <= 99 && !(77 <= v <= 79)
  {
    if v <= 16 then [UNIT_WORDS[v]]
    else if v <= 19 then ["dix", UNIT_WORDS[v - 10]]
    else if v <= 69 then [TENS_WORDS[v / 10 - 2]] + (if v % 10 == 0 then [] else [UNIT_WORDS[v % 10]])
    else if v <= 76 then ["soixante", "dix"] + (if v == 70 then [] else [UNIT_WORDS[v - 70]])
    else if v <= 89 then ["quatre", "vingt"] + (if v == 80 then [] else [UNIT_WORDS[v - 80]])
    else ["quatre", "vingt", "dix"] + (if v == 90 then [] else [UNIT_WORDS[v - 90]])
  }

  lemma {:induction false} SpellingTables()
    ensures |UNIT_WORDS| == 17 && |TENS_WORDS| == 5
    ensures forall u :: 0 <= u <= 16 ==> UNIT_WORDS[u] in UNITS && UNITS[UNIT_WORDS[u]] == u
    ensures forall d :: 0 <= d <= 4 ==> TENS_WORDS[d] in TENS && TENS[TENS_WORDS[d]] == 10 * d + 20
  {}

  lemma {:induction false} SpellDenotes(v: nat)
    requires v <= 99 && !(77 <= v <= 79)
    ensures Denotes(Spell(v), Number(v))
  {
    hide Denotes;
    SpellingTables();
    if v <= 19 || v >= 70 { SpellByUnits(v); } else { SpellByTens(v); }
  }

  lemma {:induction false} SpellByUnits(v: nat)
    requires v <= 19 || 70 <= v <= 76 || 80 <= v <= 99
    ensures Denotes(Spell(v), Number(v))
  {
    hide Tens, UNITS, TENS, UNIT_WORDS, TENS_WORDS;
    SpellingTables();
    if v >= 90 { assert v > 90 ==> Spell(v)[..3] == ["quatre", "vingt", "dix"]; }
    else if v >= 80 { assert v > 80 ==> Spell(v)[..2] == ["quatre", "vingt"]; }
    else if v >= 70 { assert v > 70 ==> Spell(v)[..2] == ["soixante", "dix"]; }
  }

  lemma {:induction false} SpellByTens(v: nat)
    requires 20 <= v <= 69
    ensures Denotes(Spell(v), Number(v))
  {
    hide UNITS, TENS, UNIT_WORDS, TENS_WORDS;
    SpellingTables();
    assert Tens(Spell(v)[0]) == Some(Number(v / 10 * 10));
  }

  /** Every value from 0 to 99 has a spelling the parser accepts, except 77, 78 and 79. */
  lemma {:induction false} AcceptedValues(v: nat)
    ensures (exists ts :: ParseNumber(ts) == Some(Number(v))) <==> v <= 99 && !(77 <= v <= 79)
  {
    if v <= 99 && !(77 <= v <= 79) {
      SpellDenotes(v);
      ParseIffDenotes(Spell(v), Number(v));
    }
    if ts :| ParseNumber(ts) == Some(Number(v)) {
      ParseIffDenotes(ts, Number(v));
      assert !(77 <= v <= 79) by { NoSeventySeven(ts, v); }
    }
  }

  lemma {:induction false} NoSeventySeven(ts: seq<Token>, v: nat)
    requires Denotes(ts, Number(v))
    ensures !(77 <= v <= 79)
  {
    WordTables();
    assert forall w :: w in TENS ==> TENS[w] <= 60;
    assert forall w :: w in UNITS ==> UNITS[w] <= 16;
  }

  predicate SaysUnit(w: Token, n: nat) { (n <= 16 && w == UNIT_WORDS[n]) || (n == 1 && w == "une") }

  /** What may follow the word for a multiple of ten: nothing, a unit, or `et` and a unit. */
  predicate AfterTens(rest: seq<Token>, unit: nat) {
    if unit == 0 then rest == []
    else if |rest| == 2 then rest[0] == "et" && SaysUnit(rest[1], unit)
    else |rest| == 1 && SaysUnit(rest[0], unit)
  }

  /** The unit that follows ten or a score, if there is one. */
  predicate AfterScore(rest: seq<Token>, unit: nat) {
    if unit == 0 then rest == [] else |rest| == 1 && SaysUnit(rest[0], unit)
  }

  /** The spellings of a number, word by word. */
  predicate IsSpelling(ts: seq<Token>, v: nat) {
    if v <= 16 then |ts| == 1 && SaysUnit(ts[0], v)
    else if v <= 19 then ["dix"] <= ts && AfterScore(ts[1..], v - 10)
    else if v <= 69 then ts != [] && ts[0] == TENS_WORDS[v / 10 - 2] && AfterTens(ts[1..], v % 10)
    else if v <= 76 then ["soixante", "dix"] <= ts && AfterScore(ts[2..], v - 70)
    else if 80 <= v <= 89 then ["quatre", "vingt"] <= ts && AfterScore(ts[2..], v - 80)
    else 90 <= v <= 99 && ["quatre", "vingt", "dix"] <= ts && AfterScore(ts[3..], v - 90)
  }

  lemma {:induction false} UnitsSay()
    ensures forall w, n: nat :: (w in UNITS && UNITS[w] == n) <==> SaysUnit(w, n)
  {}

  lemma {:induction false} TensSay(w: Token, v: nat)
    requires 20 <= v <= 69
    ensures w in TENS && TENS[w] == v / 10 * 10 <==> w == TENS_WORDS[v / 10 - 2]
  {}

  /** The parser reads a list as a number exactly when it is one of the spellings of that number. */
  lemma {:induction false} SpellingsAre(ts: seq<Token>, v: nat)
    ensures ParseNumber(ts) == Some(Number(v)) <==> IsSpelling(ts, v)
  {
    ParseIffDenotes(ts, Number(v));
    DenotesIffSpelling(ts, v);
  }

  lemma {:induction false} DenotesIffSpelling(ts: seq<Token>, v: nat)
    ensures Denotes(ts, Number(v)) <==> IsSpelling(ts, v)
  {
    hide Denotes, IsSpelling;
    if v <= 19 { SmallSpelling(ts, v); } else if v <= 69 { TensSpelling(ts, v); } else { LargeSpelling(ts, v); }
  }

  lemma {:induction false} ValuesOfWords()
    ensures forall w :: w in TENS ==> TENS[w] in {20, 30, 40, 50, 60}
    ensures forall w :: w in UNITS ==> UNITS[w] <= 16
  {}

  lemma {:induction false} SmallSpelling(ts: seq<Token>, v: nat)
    requires v <= 19
    ensures Denotes(ts, Number(v)) <==> IsSpelling(ts, v)
  {
    hide UNITS, TENS, UNIT_WORDS, TENS_WORDS;
    WordTables();
    UnitsSay();
    ValuesOfWords();
  }

  lemma {:induction false} TensSpelling(ts: seq<Token>, v: nat)
    requires 20 <= v <= 69
    ensures Denotes(ts, Number(v)) <==> IsSpelling(ts, v)
  {
    hide UNITS, TENS, UNIT_WORDS, TENS_WORDS;
    WordTables();
    UnitsSay();
    ValuesOfWords();
    if ts != [] { TensSay(ts[0], v); }
  }

  lemma {:induction false} LargeSpelling(ts: seq<Token>, v: nat)
    requires v >= 70
    ensures Denotes(ts, Number(v)) <==> IsSpelling(ts, v)
  {
    hide UNITS, TENS, UNIT_WORDS, TENS_WORDS;
    WordTables();
    UnitsSay();
    ValuesOfWords();
  }

  /** It reads the inherited function exactly from its key, and appends the digit of a unit said behind it. */
  lemma {:induction false} InheritedIsRead(ts: seq<Token>, digit: Option<nat>)
    ensures ParseNumber(ts) == Some(Inherited(digit))
            <==> ["constructor"] <= ts
                 && (if digit.None? then |ts| == 1 else 1 <= digit.value <= 9 && AfterTens(ts[1..], digit.value))
  {
    ParseIffDenotes(ts, Inherited(digit));
    InheritedDenotes(ts, digit);
  }

  lemma {:induction false} InheritedDenotes(ts: seq<Token>, digit: Option<nat>)
    ensures Denotes(ts, Inherited(digit))
            <==> ["constructor"] <= ts
                 && (if digit.None? then |ts| == 1 else 1 <= digit.value <= 9 && AfterTens(ts[1..], digit.value))
  {
    hide UNITS, TENS, UNIT_WORDS, TENS_WORDS;
    WordTables();
    UnitsSay();
    ValuesOfWords();
  }

  // ----- the greedy scan

  /** The longest accepted prefix of `ts` of length at most `w`. */
  function LongestNumber(ts: seq<Token>, w: nat): (r: Option<(nat, Value)>)
    requires w <= |ts|
    ensures r.Some? ==> 1 <= r.value.0 <= w && ParseNumber(ts[..r.value.0]) == Some(r.value.1)
    ensures forall k :: (if r.Some? then r.value.0 else 0) < k <= w ==> ParseNumber(ts[..k]) == None
  {
    if w == 0 then None
    else if ParseNumber(ts[..w]).Some? then Some((w, ParseNumber(ts[..w]).value))
    else LongestNumber(ts, w - 1)
  }

  function Digit(d: nat): char
    requires d <= 9
  { ['0', '1', '2', '3', '4', '5', '6', '7', '8', '9'][d] }

  function Decimal(v: nat): Token
    requires v <= 99
  { if v <= 9 then [Digit(v)] else [Digit(v / 10), Digit(v % 10)] }

  /** A value as text. */
  function Written(v: Value): Token
    requires v.Valid()
  {
    match v
    case Number(n) => Decimal(n)
    case Inherited(d) => OBJECT_TEXT + (if d.Some? then Decimal(d.value) else "")
  }

  /** Number words replaced by digits, taking at each position the longest accepted list of any length. */
  function Numbers(ts: seq<Token>): seq<Token>
    decreases |ts|
  {
    if ts == [] then []
    else match LongestNumber(ts, |ts|)
      case Some((w, v)) => [Written(v)] + Numbers(ts[w..])
      case None => [ts[0]] + Numbers(ts[1..])
  }

  /** A window of four tokens finds the longest number of any length. */
  lemma {:induction false} FourTokensSuffice(ts: seq<Token>, w: nat)
    requires 4 <= w <= |ts|
    ensures LongestNumber(ts, w) == LongestNumber(ts, 4)
  {
    hide ParseNumber;
    if w > 4 {
      forall v ensures ParseNumber(ts[..w]) != Some(v) { ParseIffDenotes(ts[..w], v); }
      assert ParseNumber(ts[..w]).None?;
      FourTokensSuffice(ts, w - 1);
    }
  }

  /** The inner loop: try the four-token window first, then narrower ones. */
  method WidestMatch(tokens: seq<Token>, index: nat) returns (r: Option<(nat, Value)>)
    requires index < |tokens|
    ensures r == LongestNumber(tokens[index..], |tokens| - index)
  {
    hide ParseNumber;
    ghost var ts := tokens[index..];
    var width := if |tokens| - index < 4 then |tokens| - index else 4;
    if |ts| > 4 { FourTokensSuffice(ts, |ts|); }
    while width >= 1
      invariant 0 <= width <= |ts| && LongestNumber(ts, |ts|) == LongestNumber(ts, width)
    {
      assert ts[..width] == tokens[index..index + width];
      var value := ParseNumber(tokens[index..index + width]);
      if value.Some? { return Some((width, value.value)); }
      width := width - 1;
    }
    return None;
  }

  method MapNumbers(tokens: seq<Token>) returns (mapped: seq<Token>)
    ensures mapped == Numbers(tokens)
  {
    hide ParseNumber, LongestNumber, Numbers;
    assert tokens[0..] == tokens && [] + Numbers(tokens) == Numbers(tokens);
    mapped := [];
    var index := 0;
    while index < |tokens|
      invariant index <= |tokens|
      invariant Numbers(tokens) == mapped + Numbers(tokens[index..])
    {
      var r := WidestMatch(tokens, index);
      NumbersStep(tokens[index..], mapped);
      if r.Some? {
        assert tokens[index..][r.value.0..] == tokens[index + r.value.0..];
        mapped := mapped + [Written(r.value.1)];
        index := index + r.value.0;
      } else {
        assert tokens[index..][1..] == tokens[index + 1..];
        mapped := mapped + [tokens[index]];
        index := index + 1;
      }
    }
    assert tokens[index..] == [];
    NumbersEnd(mapped);
  }

  lemma {:induction false} NumbersEnd(done: seq<Token>)
    ensures done + Numbers([]) == done
  {}

  lemma {:induction false} NumbersStep(ts: seq<Token>, done: seq<Token>)
    requires ts != []
    ensures var r := LongestNumber(ts, |ts|);
            done + Numbers(ts) == if r.Some? then done + [Written(r.value.1)] + Numbers(ts[r.value.0..])
                                  else done + [ts[0]] + Numbers(ts[1..])
  {
    hide ParseNumber, LongestNumber, Written;
  }

  lemma {:induction false} NumbersUnfold(ts: seq<Token>)
    requires ts != []
    ensures var r := LongestNumber(ts, |ts|);
            Numbers(ts) == if r.Some? then [Written(r.value.1)] + Numbers(ts[r.value.0..])
              else [ts[0]] + Numbers(ts[1..])
  {
    hide ParseNumber, LongestNumber, Written;
  }

  // ----- what the scan leaves behind

  ghost predicate NoNumberWord(ts: seq<Token>) { forall i :: 0 <= i < |ts| ==> !NumberWord(ts[i]) }

  lemma {:induction false} WordsAreLetters(w: Token)
    requires NumberWord(w)
    ensures |w| >= 2 && forall i :: 0 <= i < |w| ==> 'a' <= w[i] <= 'z'
  {}

  lemma {:induction false} DecimalIsNoWord(v: nat)
    requires v <= 99
    ensures !NumberWord(Decimal(v))
  {
    hide NumberWord;
    assert Decimal(v)[0] <= '9';
    if NumberWord(Decimal(v)) { WordsAreLetters(Decimal(v)); }
  }

  lemma {:induction false} WrittenIsNoWord(v: Value)
    requires v.Valid()
    ensures !NumberWord(Written(v))
  {
    hide NumberWord;
    match v
    case Number(n) => DecimalIsNoWord(n);
    case Inherited(_) =>
      assert Written(v)[8] == OBJECT_TEXT[8] == ' ';
      if NumberWord(Written(v)) { WordsAreLetters(Written(v)); }
  }

  /** A position the scan leaves alone does not hold a number word. */
  lemma {:induction false} UnmatchedIsNoWord(ts: seq<Token>)
    requires ts != [] && LongestNumber(ts, |ts|) == None
    ensures !NumberWord(ts[0])
  {
    hide ParseNumber, NumberWord, LongestNumber;
    assert ParseNumber(ts[..1]) == None;
    assert ts[..1] == [ts[0]];
    OneWordIsNumber(ts[0]);
  }

  lemma {:induction false} NumbersLeaveNoWord(ts: seq<Token>)
    ensures NoNumberWord(Numbers(ts))
    decreases |ts|
  {
    hide ParseNumber, LongestNumber, NumberWord;
    if ts != [] {
      match LongestNumber(ts, |ts|)
      case Some((w, v)) => NumbersLeaveNoWord(ts[w..]); WrittenIsNoWord(v);
      case None => NumbersLeaveNoWord(ts[1..]); UnmatchedIsNoWord(ts);
    }
  }

  /** Accepted lists begin with a number word and hold nothing else but `et`. */
  lemma {:induction false} NumbersAreWords(ts: seq<Token>)
    requires ParseNumber(ts).Some?
    ensures ts != [] && NumberWord(ts[0])
    ensures forall i :: 0 <= i < |ts| ==> NumberWord(ts[i]) || ts[i] == "et"
  {
    ParseIffDenotes(ts, ParseNumber(ts).value);
    DenotesOnlyWords(ts, ParseNumber(ts).value);
  }

  lemma {:induction false} DenotesOnlyWords(ts: seq<Token>, v: Value)
    requires Denotes(ts, v)
    ensures ts != [] && NumberWord(ts[0])
    ensures forall i :: 0 <= i < |ts| ==> NumberWord(ts[i]) || ts[i] == "et"
  {
    WordTables();
    assert |ts| >= 2 && ts[..2] == ["quatre", "vingt"] ==> ts[0] == "quatre" && ts[1] == "vingt";
  }

  lemma {:induction false} NoWordNoNumber(ts: seq<Token>, w: nat)
    requires w <= |ts| && (ts == [] || !NumberWord(ts[0]))
    ensures LongestNumber(ts, w) == None
  {
    hide ParseNumber, NumberWord;
    if w > 0 {
      if ParseNumber(ts[..w]).Some? { NumbersAreWords(ts[..w]); }
      NoWordNoNumber(ts, w - 1);
    }
  }

  /** The lists the scan leaves unchanged are those without number words. */
  lemma {:induction false} NumbersFixpoint(ts: seq<Token>)
    ensures Numbers(ts) == ts <==> NoNumberWord(ts)
    decreases |ts|
  {
    hide ParseNumber, LongestNumber, NumberWord;
    NumbersLeaveNoWord(ts);
    if ts != [] && NoNumberWord(ts) {
      NoWordNoNumber(ts, |ts|);
      NumbersFixpoint(ts[1..]);
    }
  }

  /** Any accepted list before an ordinary word is read whole, whatever comes next. */
  lemma {:induction false} SpelledNumberIsRead(number: seq<Token>, v: Value, word: Token, rest: seq<Token>)
    requires ParseNumber(number) == Some(v) && !NumberWord(word) && word != "et"
    ensures Numbers(number + [word] + rest) == [Written(v), word] + Numbers(rest)
  {
    hide ParseNumber, NumberWord, LongestNumber, Written;
    NumberBeforeWord(number, v, word, rest);
    var ts := number + [word] + rest;
    assert ts[|number|..] == [word] + rest;
    NoWordNoNumber([word] + rest, |[word] + rest|);
    assert ([word] + rest)[1..] == rest;
  }

  lemma {:induction false} NumberBeforeWord(number: seq<Token>, v: Value, word: Token, rest: seq<Token>)
    requires ParseNumber(number) == Some(v) && !NumberWord(word) && word != "et"
    ensures LongestNumber(number + [word] + rest, |number + [word] + rest|) == Some((|number|, v))
  {
    hide ParseNumber, NumberWord, LongestNumber;
    var ts, n := number + [word] + rest, |number|;
    var r := LongestNumber(ts, |ts|);
    assert ts[..n] == number && ts[n] == word;
    assert r.Some? && r.value.0 >= n;
    if r.value.0 > n {
      NumbersAreWords(ts[..r.value.0]);
    }
  }

  /** Seventy-seven is read as 70 and 7, although ninety-seven is read whole. */
  lemma {:induction false} SeventySevenIsSplit()
    ensures Numbers(["soixante", "dix", "sept"]) == ["70", "7"]
    ensures Numbers(["quatre", "vingt", "dix", "sept"]) == ["97"]
  {
    hide ParseNumber, LongestNumber, Numbers;
    var ts := ["soixante", "dix", "sept"];
    assert ts[..2] == ["soixante", "dix"] && ts[2..] == ["sept"] && ts[..3] == ts;
    ParsedExamples();
    NumbersUnfold(ts);
    assert LongestNumber(ts, 3) == Some((2, Number(70))) by { LongestStep(ts, 3); LongestStep(ts, 2); }
    OneNumber(["sept"], Number(7));
    OneNumber(["quatre", "vingt", "dix", "sept"], Number(97));
  }

  lemma {:induction false} ParsedExamples()
    ensures ParseNumber(["soixante", "dix", "sept"]) == None && ParseNumber(["soixante", "dix"]) == Some(Number(70))
    ensures ParseNumber(["sept"]) == Some(Number(7))
            && ParseNumber(["quatre", "vingt", "dix", "sept"]) == Some(Number(97))
  {
    hide ParseNumber;
    var ts, us := ["soixante", "dix", "sept"], ["quatre", "vingt", "dix", "sept"];
    forall v ensures ParseNumber(ts) != Some(v) { ParseIffDenotes(ts, v); }
    ParseIffDenotes(["soixante", "dix"], Number(70));
    ParseIffDenotes(["sept"], Number(7));
    assert us[..3] == ["quatre", "vingt", "dix"] && us[3] == "sept";
    ParseIffDenotes(us, Number(97));
  }

  lemma {:induction false} LongestStep(ts: seq<Token>, w: nat)
    requires 0 < w <= |ts|
    ensures LongestNumber(ts, w) == if ParseNumber(ts[..w]).Some? then Some((w, ParseNumber(ts[..w]).value))
                                    else LongestNumber(ts, w - 1)
  {
    hide ParseNumber;
  }

  /** A list that is one number is written as that number. */
  lemma {:induction false} OneNumber(ts: seq<Token>, v: Value)
    requires ParseNumber(ts) == Some(v)
    ensures Numbers(ts) == [Written(v)]
  {
    hide ParseNumber, LongestNumber, Numbers, Written;
    assert ts[..|ts|] == ts && ts[|ts|..] == [];
    LongestStep(ts, |ts|);
    NumbersUnfold(ts);
    NumbersEnd([]);
    assert [] + Numbers([]) == Numbers([]) && [Written(v)] + [] == [Written(v)];
  }
}
