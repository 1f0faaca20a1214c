/**
 * The whole transcript normaliser (nb-normalize.ts): letters joined, number words turned
 * to digits, times turned to clocks.
 */
module Normalizer {
  import opened Wrappers
  import opened FrenchNumbers
  import opened SpelledLetters
  import opened SpokenTimes
  import opened TimePhrases

  function Normalize(ts: seq<Token>): seq<Token> { Times(Numbers(Join(ts))) }

  method NormalizeTokens(raw: seq<Token>) returns (r: seq<Token>)
    ensures r == Normalize(raw)
  {
    var tokens := JoinSpelledLetters(raw);
    var mapped := MapNumbers(tokens);
    r := NormalizeTimes(mapped);
  }

  // ----- idempotence

  /** Nothing any of the three passes would change. */
  ghost predicate Canonical(ts: seq<Token>) { NoSpelling(ts) && NoNumberWord(ts) && NoTime(ts) }

  lemma {:induction false} WrittenIsNoLetter(v: Value)
    requires v.Valid()
    ensures !Letter(Written(v))
  {
    if v.Inherited? { assert |Written(v)| >= |OBJECT_TEXT|; }
  }

  /** If the numbers pass yields single letters first, they were there before. */
  lemma {:induction false} NumbersKeepLetterPrefix(ts: seq<Token>, k: nat)
    requires k <= |Numbers(ts)| && Letters(Numbers(ts)[..k])
    ensures k <= |ts| && Numbers(ts)[..k] == ts[..k]
    decreases |ts|
  {
    hide LongestNumber, Letter, Written;
    if k > 0 {
      assert Letter(Numbers(ts)[..k][0]);
      if LongestNumber(ts, |ts|).Some? {
        WrittenIsNoLetter(LongestNumber(ts, |ts|).value.1);
        assert false;
      } else {
        assert Numbers(ts)[..k] == [ts[0]] + Numbers(ts[1..])[..k-1];
        assert Numbers(ts[1..])[..k-1] == Numbers(ts)[..k][1..];
        assert Letters(Numbers(ts)[..k][1..]);
        NumbersKeepLetterPrefix(ts[1..], k - 1);
        assert ts[..k] == [ts[0]] + ts[1..][..k-1];
      }
    }
  }

  lemma {:induction false} TimesKeepLetterPrefix(ts: seq<Token>, k: nat)
    requires k <= |Times(ts)| && Letters(Times(ts)[..k])
    ensures k <= |ts| && Times(ts)[..k] == ts[..k]
    decreases |ts|
  {
    hide TimeAt, Letter, IsClock;
    if k > 0 {
      assert Letter(Times(ts)[..k][0]);
      TimesHead(ts);
      if TimeAt(ts).Some? {
        ClockIsInert(Times(ts)[0]);
        assert false;
      } else {
        assert Times(ts)[..k] == [ts[0]] + Times(ts[1..])[..k-1];
        assert Times(ts[1..])[..k-1] == Times(ts)[..k][1..];
        assert Letters(Times(ts)[..k][1..]);
        TimesKeepLetterPrefix(ts[1..], k - 1);
        assert ts[..k] == [ts[0]] + ts[1..][..k-1];
      }
    }
  }

  lemma {:induction false} NoSpellingCons(r: seq<Token>, ts: seq<Token>)
    requires r != [] && NoSpelling(r[1..]) && NoSpelling(ts)
    requires |r| >= 3 && Letter(r[0]) && Letter(r[1]) && Letter(r[2]) ==> |ts| >= 3 && r[..3] == ts[..3]
    ensures NoSpelling(r)
  {
    hide Letter;
    assert forall i :: 0 <= i < |r| - 1 ==> r[1..][i] == r[i+1];
    if |r| >= 3 && |ts| >= 3 {
      assert r[..3] == ts[..3] ==> r[0] == ts[0] && r[1] == ts[1] && r[2] == ts[2] by {
        assert r[..3][0] == r[0] && r[..3][1] == r[1] && r[..3][2] == r[2];
        assert ts[..3][0] == ts[0] && ts[..3][1] == ts[1] && ts[..3][2] == ts[2];
      }
    }
  }

  lemma {:induction false} NoSpellingSuffix(ts: seq<Token>, w: nat)
    requires NoSpelling(ts) && w <= |ts|
    ensures NoSpelling(ts[w..])
  {
    hide Letter;
  }

  lemma {:induction false} NumbersKeepNoSpelling(ts: seq<Token>)
    requires NoSpelling(ts)
    ensures NoSpelling(Numbers(ts))
    decreases |ts|
  {
    hide LongestNumber, Letter, Written, Numbers, NoSpelling;
    if ts == [] {
      NumbersEnd([]);
      assert [] + Numbers(ts) == Numbers(ts);
    } else {
      var r, w := Numbers(ts), if LongestNumber(ts, |ts|).Some? then LongestNumber(ts, |ts|).value.0 else 1;
      NoSpellingSuffix(ts, w);
      NumbersKeepNoSpelling(ts[w..]);
      NumbersUnfold(ts);
      assert r[1..] == Numbers(ts[w..]);
      if |r| >= 3 && Letter(r[0]) && Letter(r[1]) && Letter(r[2]) {
        assert Letters(r[..3]);
        NumbersKeepLetterPrefix(ts, 3);
      }
      NoSpellingCons(r, ts);
    }
  }

  lemma {:induction false} TimesKeepNoSpelling(ts: seq<Token>)
    requires NoSpelling(ts)
    ensures NoSpelling(Times(ts))
    decreases |ts|
  {
    hide TimeAt, Letter;
    if ts != [] {
      var r, w := Times(ts), if TimeAt(ts).Some? then TimeAt(ts).value.1 else 1;
      assert NoSpelling(ts[w..]);
      TimesKeepNoSpelling(ts[w..]);
      assert r[1..] == Times(ts[w..]);
      if |r| >= 3 && Letter(r[0]) && Letter(r[1]) && Letter(r[2]) { TimesKeepLetterPrefix(ts, 3); }
      NoSpellingCons(r, ts);
    }
  }

  lemma {:induction false} ClockIsNoWord(t: Token)
    requires IsClock(t)
    ensures !NumberWord(t)
  {
    hide NumberWord;
    assert t[..2][0] == t[0];
    if NumberWord(t) { WordsAreLetters(t); }
  }

  lemma {:induction false} TimesKeepNoNumberWord(ts: seq<Token>)
    requires NoNumberWord(ts)
    ensures NoNumberWord(Times(ts))
    decreases |ts|
  {
    hide TimeAt, NumberWord, IsClock;
    if ts != [] {
      var w := if TimeAt(ts).Some? then TimeAt(ts).value.1 else 1;
      TimesKeepNoNumberWord(ts[w..]);
      TimesHead(ts);
      if TimeAt(ts).Some? { ClockIsNoWord(Times(ts)[0]); }
    }
  }

  lemma {:induction false} NormalizeIsCanonical(ts: seq<Token>)
    ensures Canonical(Normalize(ts))
  {
    JoinLeavesNoSpelling(ts);
    NumbersKeepNoSpelling(Join(ts));
    TimesKeepNoSpelling(Numbers(Join(ts)));
    NumbersLeaveNoWord(Join(ts));
    TimesKeepNoNumberWord(Numbers(Join(ts)));
    TimesLeaveNoTime(Numbers(Join(ts)));
  }

  /** The lists normalisation leaves alone are the canonical ones, and it only ever yields those. */
  lemma {:induction false} NormalizeFixpoint(ts: seq<Token>)
    ensures Normalize(ts) == ts <==> Canonical(ts)
  {
    NormalizeIsCanonical(ts);
    if Canonical(ts) {
      JoinFixpoint(ts);
      NumbersFixpoint(ts);
      TimesFixpoint(ts);
    }
  }

  /** A second normalisation changes nothing. */
  lemma {:induction false} NormalizeIdempotent(ts: seq<Token>)
    ensures Normalize(Normalize(ts)) == Normalize(ts)
  {
    NormalizeIsCanonical(ts);
    NormalizeFixpoint(Normalize(ts));
  }

  /**
   * The minutes in words are gone before times are read: those branches of the time pass see no list of the
   * pipeline.
   */
  lemma {:induction false} NoWordMinutesReachTimes(ts: seq<Token>, i: nat)
    requires i < |Numbers(Join(ts))|
    ensures Numbers(Join(ts))[i] !in {"trente", "quinze", "quarante"}
  {
    NumbersLeaveNoWord(Join(ts));
    assert NumberWord("trente") && NumberWord("quinze") && NumberWord("quarante");
  }

  // ----- words and figures compare equal

  /** `ts` does not go on with a number. */
  predicate EndsNumber(ts: seq<Token>) { ts == [] || (!NumberWord(ts[0]) && ts[0] != "et") }

  lemma {:induction false} AcceptedHasNoLetter(number: seq<Token>)
    requires ParseNumber(number).Some?
    ensures number != [] && forall i :: 0 <= i < |number| ==> !Letter(number[i])
  {
    hide NumberWord, ParseNumber;
    NumbersAreWords(number);
    forall i | 0 <= i < |number| ensures !Letter(number[i]) {
      if NumberWord(number[i]) { WordsAreLetters(number[i]); }
    }
  }

  /** Tokens that are not single letters are joined with nothing. */
  lemma {:induction false} JoinAfterWords(ts: seq<Token>, rest: seq<Token>)
    requires forall i :: 0 <= i < |ts| ==> !Letter(ts[i])
    ensures Join(ts + rest) == ts + Join(rest)
  {
    hide Letter;
    if ts == [] {
      assert ts + rest == rest && ts + Join(rest) == Join(rest);
    } else {
      var all := ts + rest;
      assert all == [] + [ts[0]] + (ts[1..] + rest) && !Letter(ts[0]);
      JoinAtWord([], ts[0], ts[1..] + rest);
      JoinAfterWords(ts[1..], rest);
      assert ts + Join(rest) == [ts[0]] + (ts[1..] + Join(rest));
    }
  }

  /** Nor is one token of any kind before a token that is not a single letter. */
  lemma {:induction false} JoinBeforeWord(t: Token, rest: seq<Token>)
    requires rest != [] && !Letter(rest[0])
    ensures Join([t] + rest) == [t] + Join(rest)
  {
    hide Letter;
    LettersStartRun([t] + rest);
    assert ([t] + rest)[1..] == rest;
  }

  lemma {:induction false} PlainWordIsKept(t: Token, rest: seq<Token>)
    requires !NumberWord(t)
    ensures Numbers([t] + rest) == [t] + Numbers(rest)
  {
    hide NumberWord, LongestNumber;
    var ts := [t] + rest;
    NoWordNoNumber(ts, |ts|);
    assert ts[1..] == rest;
  }

  /** `vingt et une personnes` and `21 personnes` normalise alike: any accepted list, before anything but more of it. */
  lemma {:induction false} WordsAndFiguresAgree(number: seq<Token>, v: Value, rest: seq<Token>)
    requires ParseNumber(number) == Some(v) && EndsNumber(Join(rest))
    ensures Normalize(number + rest) == Normalize([Written(v)] + rest)
  {
    hide NumberWord, ParseNumber, Letter, Written, LongestNumber, EndsNumber;
    AcceptedHasNoLetter(number);
    WrittenIsNoLetter(v);
    WrittenIsNoWord(v);
    JoinAfterWords(number, rest);
    JoinAfterWords([Written(v)], rest);
    NumberIsRead(number, v, Join(rest));
    PlainWordIsKept(Written(v), Join(rest));
  }

  lemma {:induction false} NumberIsRead(number: seq<Token>, v: Value, rest: seq<Token>)
    requires ParseNumber(number) == Some(v) && EndsNumber(rest)
    ensures Numbers(number + rest) == [Written(v)] + Numbers(rest)
  {
    hide NumberWord, ParseNumber, Written, LongestNumber;
    if rest == [] {
      assert number + rest == number;
      OneNumber(number, v);
      NumbersEnd([]);
    } else {
      SpelledNumberIsRead(number, v, rest[0], rest[1..]);
      assert number + rest == number + [rest[0]] + rest[1..] && rest == [rest[0]] + rest[1..];
      PlainWordIsKept(rest[0], rest[1..]);
    }
  }

  /** What follows a time, when the times are read. */
  function After(rest: seq<Token>): seq<Token> { Numbers(Join(rest)) }

  /**
   * `vingt heures trente` and `20h30`, whatever follows: both are read whole, and they agree
   * exactly when no part of the day follows a morning hour, as only the spoken form listens to it.
   */
  lemma {:induction false} SpokenAndGluedAgree(spokenHour: seq<Token>, hour: nat, word: Token, spokenMinute: seq<Token>,
                                               minute: nat, rest: seq<Token>)
    requires ParseNumber(spokenHour) == Some(Number(hour)) && HourWord(word)
    requires ParseNumber(spokenMinute) == Some(Number(minute)) && EndsNumber(Join(rest))
    ensures var spoken := Normalize(spokenHour + [word] + spokenMinute + rest);
            var glued := Normalize([Pad(hour) + "h" + Pad(minute)] + rest);
            && spoken == [Clock(MovedHour(hour, After(rest)), minute)] + Times(After(rest))
            && glued == [Clock(hour, minute)] + Times(After(rest))
            && (spoken == glued <==> hour >= 12 || !PartOfDay(After(rest)))
  {
    hide ParseNumber, Clock, Times, Numbers, Join, Pad, PartOfDay, EndsNumber, HourWord;
    SpokenTimeNormalized(spokenHour, hour, word, spokenMinute, minute, rest);
    GluedTimeNormalized(hour, minute, rest);
    ClockIsInjective(MovedHour(hour, After(rest)), hour, minute);
    SameHead(Clock(MovedHour(hour, After(rest)), minute), Clock(hour, minute), Times(After(rest)));
  }

  lemma {:induction false} SameHead(a: Token, b: Token, rest: seq<Token>)
    ensures [a] + rest == [b] + rest <==> a == b
  {
    assert ([a] + rest)[0] == a && ([b] + rest)[0] == b;
  }

  lemma {:induction false} SpokenTimeNormalized(spokenHour: seq<Token>, hour: nat, word: Token,
                                                spokenMinute: seq<Token>, minute: nat, rest: seq<Token>)
    requires ParseNumber(spokenHour) == Some(Number(hour)) && HourWord(word)
    requires ParseNumber(spokenMinute) == Some(Number(minute)) && EndsNumber(Join(rest))
    ensures Normalize(spokenHour + [word] + spokenMinute + rest)
            == [Clock(MovedHour(hour, After(rest)), minute)] + Times(After(rest))
  {
    hide NumberWord, ParseNumber, Letter, Decimal, Clock, MovedHour, HourWord, EndsNumber, Times, Numbers, Join,
      Numeral;
    AcceptedHasNoLetter(spokenMinute);
    JoinBeforeWord(word, spokenMinute + rest);
    JoinAfterWords(spokenMinute, rest);
    NumberIsRead(spokenMinute, Number(minute), Join(rest));
    assert Written(Number(minute)) == Decimal(minute);
    DecimalIsNumeral(minute);
    MinutesInFigures(Decimal(minute), After(rest));
    TimeNormalized(spokenHour, hour, word, spokenMinute, [Decimal(minute)], minute, rest);
  }

  /**
   * A spoken hour with its minutes `said`, which the numbers pass turns into `read`, and the time pass into
   * `minute`.
   */
  lemma {:induction false} TimeNormalized(spokenHour: seq<Token>, hour: nat, word: Token, said: seq<Token>,
                                          read: seq<Token>, minute: nat, rest: seq<Token>)
    requires ParseNumber(spokenHour) == Some(Number(hour)) && HourWord(word)
    requires Join([word] + (said + rest)) == [word] + (said + Join(rest))
    requires Numbers(said + Join(rest)) == read + After(rest) && minute <= 99
    requires Minutes(read + After(rest)) == (minute, |read|)
    ensures Normalize(spokenHour + [word] + said + rest)
            == [Clock(MovedHour(hour, After(rest)), minute)] + Times(After(rest))
  {
    hide NumberWord, ParseNumber, Letter, Decimal, Clock, MovedHour, HourWord, EndsNumber, Times, Numbers, Join,
      Minutes;
    AcceptedHasNoLetter(spokenHour);
    HourWordIsOrdinary(word);
    assert spokenHour + [word] + said + rest == spokenHour + ([word] + (said + rest));
    JoinAfterWords(spokenHour, [word] + (said + rest));
    var joined := said + Join(rest);
    HourWordEnds(word, joined);
    NumberIsRead(spokenHour, Number(hour), [word] + joined);
    PlainWordIsKept(word, joined);
    assert Written(Number(hour)) == Decimal(hour);
    MinutesAreRead(hour, word, read, minute, After(rest));
  }

  lemma {:induction false} HourWordEnds(word: Token, rest: seq<Token>)
    requires HourWord(word)
    ensures EndsNumber([word] + rest)
  {}

  lemma {:induction false} HourWordIsOrdinary(word: Token)
    requires HourWord(word)
    ensures !NumberWord(word) && word != "et"
  {}

  lemma {:induction false} MinutesAreRead(hour: nat, word: Token, read: seq<Token>, minute: nat, rest: seq<Token>)
    requires hour <= 99 && minute <= 99 && HourWord(word) && Minutes(read + rest) == (minute, |read|)
    ensures Times([Decimal(hour)] + ([word] + (read + rest))) == [Clock(MovedHour(hour, rest), minute)] + Times(rest)
  {
    hide Numeral, NumeralValue, HourWord, MovedHour, Clock, Glued, Decimal, Minutes;
    var ts := [Decimal(hour)] + ([word] + (read + rest));
    DecimalIsNumeral(hour);
    NumeralIsNotGlued(Decimal(hour));
    assert ts[2..] == read + rest && ts[2 + |read|..] == rest;
    ResolveIsMoved(hour, rest);
  }

  lemma {:induction false} MinutesInFigures(t: Token, rest: seq<Token>)
    requires Numeral(t)
    ensures Minutes([t] + rest) == (NumeralValue(t), 1)
  {
    hide Numeral, NumeralValue;
    WordsAreNotNumerals();
  }

  lemma {:induction false} GluedTimeNormalized(hour: nat, minute: nat, rest: seq<Token>)
    requires hour <= 99 && minute <= 99
    ensures Normalize([Pad(hour) + "h" + Pad(minute)] + rest) == [Clock(hour, minute)] + Times(After(rest))
  {
    hide Glued, Pad;
    GluedTimeIsRead(hour, minute);
    GluedNormalized(Pad(hour) + "h" + Pad(minute), hour, minute, rest);
  }

  lemma {:induction false} GluedHourNormalized(hour: nat, rest: seq<Token>)
    requires hour <= 99
    ensures Normalize([Decimal(hour) + "h"] + rest) == [Clock(hour, 0)] + Times(After(rest))
  {
    hide Glued, Decimal;
    GluedTimeIsRead(hour, 0);
    GluedNormalized(Decimal(hour) + "h", hour, 0, rest);
  }

  lemma {:induction false} GluedNormalized(t: Token, hour: nat, minute: nat, rest: seq<Token>)
    requires Glued(t) == Some((hour, minute)) && hour <= 99 && minute <= 99
    ensures Normalize([t] + rest) == [Clock(hour, minute)] + Times(After(rest))
  {
    hide NumberWord, Letter, LongestNumber, Clock, Glued, Join, Numbers;
    GluedIsNoWord(t);
    JoinAfterWords([t], rest);
    PlainWordIsKept(t, Join(rest));
    var ts := [t] + After(rest);
    assert ts[0] == t && ts[1..] == After(rest);
  }

  /** The minutes said in words that are no number, before what does not go on with them. */
  predicate Fraction(m: MinutePhrase) { m.Valid() && (m.Sharp? || m.HalfPast? || m.QuarterPast?) }

  lemma {:induction false} FractionNormalized(m: MinutePhrase, rest: seq<Token>)
    requires Fraction(m)
    ensures Join(m.Said() + rest) == m.Said() + Join(rest)
    ensures Numbers(m.Said() + Join(rest)) == m.Said() + After(rest)
    ensures !m.Sharp? || !MinutesFollow(After(rest)) ==> Minutes(m.Said() + After(rest)) == (m.Value(), |m.Said()|)
  {
    hide Numbers, Join, MinutesFollow;
    FractionWords(m);
    JoinAfterWords(m.Said(), rest);
    if m.Sharp? {
      assert [] + Join(rest) == Join(rest) && [] + After(rest) == After(rest);
      MinutesFollowIff(After(rest));
      MinutesAreLongest(m, After(rest));
    } else {
      var last := m.Said()[1];
      assert m.Said() + Join(rest) == ["et"] + ([last] + Join(rest));
      PlainWordIsKept("et", [last] + Join(rest));
      PlainWordIsKept(last, Join(rest));
      MinutesAreLongest(m, m.Said() + After(rest));
    }
  }

  lemma {:induction false} FractionWords(m: MinutePhrase)
    requires Fraction(m)
    ensures forall i :: 0 <= i < |m.Said()| ==> !Letter(m.Said()[i]) && !NumberWord(m.Said()[i])
    ensures m.Sharp? || (|m.Said()| == 2 && m.Said()[0] == "et")
  {}

  /**
   * `vingt heures`, `vingt heures et quart` and `vingt heures et demie` like `20h`, `20h15` and `20h30`. The hour word
   * must not be the first of letters that are spelled out, and after a sharp hour no minutes may follow.
   */
  lemma {:induction false} FractionAndGluedAgree(spokenHour: seq<Token>, hour: nat, word: Token, m: MinutePhrase,
                                                 rest: seq<Token>)
    requires ParseNumber(spokenHour) == Some(Number(hour)) && HourWord(word) && Fraction(m)
    requires m.Sharp? ==> Run([word] + rest) < 3 && !MinutesFollow(After(rest))
    ensures var spoken := Normalize(spokenHour + [word] + m.Said() + rest);
            var glued := Normalize([Pad(hour) + "h" + Pad(m.Value())] + rest);
            && spoken == [Clock(MovedHour(hour, After(rest)), m.Value())] + Times(After(rest))
            && glued == [Clock(hour, m.Value())] + Times(After(rest))
            && (spoken == glued <==> hour >= 12 || !PartOfDay(After(rest)))
            && (m.Sharp? ==> Normalize([Decimal(hour) + "h"] + rest) == glued)
  {
    hide ParseNumber, Clock, Times, Numbers, Join, Pad, PartOfDay, HourWord, Minutes, MinutesFollow, Run;
    hide Decimal;
    FractionNormalized(m, rest);
    JoinHourWord(word, m, rest);
    TimeNormalized(spokenHour, hour, word, m.Said(), m.Said(), m.Value(), rest);
    GluedTimeNormalized(hour, m.Value(), rest);
    if m.Sharp? { GluedHourNormalized(hour, rest); }
    ClockIsInjective(MovedHour(hour, After(rest)), hour, m.Value());
    SameHead(Clock(MovedHour(hour, After(rest)), m.Value()), Clock(hour, m.Value()), Times(After(rest)));
  }

  lemma {:induction false} JoinHourWord(word: Token, m: MinutePhrase, rest: seq<Token>)
    requires HourWord(word) && Fraction(m) && (m.Sharp? ==> Run([word] + rest) < 3)
    ensures Join([word] + (m.Said() + rest)) == [word] + (m.Said() + Join(rest))
  {
    hide Join, Letter, Run, HourWord;
    FractionWords(m);
    JoinAfterWords(m.Said(), rest);
    if m.Sharp? {
      assert m.Said() + rest == rest && m.Said() + Join(rest) == Join(rest);
      JoinUnfold([word] + rest);
      assert ([word] + rest)[1..] == rest;
    } else {
      JoinBeforeWord(word, m.Said() + rest);
    }
  }

  /** `midi`, `midi et quart` and `midi et demie` are `12h00`, `12h15` and `12h30`, whatever part of the day follows. */
  lemma {:induction false} NoonAndGluedAgree(m: MinutePhrase, rest: seq<Token>)
    requires Fraction(m) && (m.Sharp? ==> !FractionFollows(After(rest)))
    ensures Normalize(["midi"] + m.Said() + rest) == Normalize([Pad(12) + "h" + Pad(m.Value())] + rest)
            == [Clock(12, m.Value())] + Times(After(rest))
  {
    hide Times, Numbers, Join, Pad, Clock, Minutes, MinutesFollow, FractionFollows, Letter, NumberWord;
    FractionNormalized(m, rest);
    MidiIsOrdinary();
    assert ["midi"] + m.Said() + rest == ["midi"] + (m.Said() + rest);
    JoinAfterWords(["midi"], m.Said() + rest);
    PlainWordIsKept("midi", m.Said() + Join(rest));
    NoonIsRead(m, After(rest));
    assert ["midi"] + m.Said() + After(rest) == ["midi"] + (m.Said() + After(rest));
    GluedTimeNormalized(12, m.Value(), rest);
  }

  lemma {:induction false} MidiIsOrdinary()
    ensures !Letter("midi") && !NumberWord("midi")
  {}

  lemma {:induction false} ClockIsInjective(h: nat, k: nat, m: nat)
    requires h <= 99 && k <= 99 && m <= 99
    ensures Clock(h, m) == Clock(k, m) <==> h == k
  {
    hide Pad, Numeral, IsClock;
    ClockShape(h, m);
    ClockShape(k, m);
    PadRoundTrip(h);
    PadRoundTrip(k);
  }

  lemma {:induction false} GluedIsNoWord(t: Token)
    requires Glued(t).Some?
    ensures !NumberWord(t) && !Letter(t)
  {
    hide NumberWord;
    assert t[..1][0] == t[0];
    if |t| >= 2 { assert t[..2][0] == t[0]; }
    assert t[0] <= '9';
    if NumberWord(t) { WordsAreLetters(t); }
  }
}
