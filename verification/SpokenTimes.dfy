/** Spoken and glued clock times rewritten to `HH:MM` (nb-normalize.ts). */
module SpokenTimes {
  import opened Wrappers
  import opened FrenchNumbers
  import opened SpelledLetters

  predicate IsDigit(c: char) { '0' <= c <= '9' }

  function DigitValue(c: char): nat
    requires IsDigit(c)
  { (c - '0') as nat }

  /** A token of one or two digits. */
  predicate Numeral(t: Token) { 1 <= |t| <= 2 && forall i :: 0 <= i < |t| ==> IsDigit(t[i]) }

  function NumeralValue(t: Token): (v: nat)
    requires Numeral(t)
    ensures v <= 99
  { if |t| == 1 then DigitValue(t[0]) else 10 * DigitValue(t[0]) + DigitValue(t[1]) }

  function Pad(v: nat): string
    requires v <= 99
  { [Digit(v / 10), Digit(v % 10)] }

  function Clock(hour: nat, minute: nat): Token
    requires hour <= 99 && minute <= 99
  { Pad(hour) + ":" + Pad(minute) }

  predicate HourWord(t: Token) { t == "h" || t == "heure" || t == "heures" }

  predicate Half(t: Token) { t == "demi" || t == "demie" }

  /** `19h45` or `19h`: one or two digits, an h, then nothing or two digits. */
  function Glued(t: Token): (r: Option<(nat, nat)>)
    ensures r.Some? ==> r.value.0 <= 99 && r.value.1 <= 99
  {
    var n := if |t| >= 2 && Numeral(t[..1]) && t[1] == 'h' then 1
             else if |t| >= 3 && Numeral(t[..2]) && t[2] == 'h' then 2 else 0;
    if n == 0 then None
    else if |t| == n + 1 then Some((NumeralValue(t[..n]), 0))
    else if |t| == n + 3 && Numeral(t[n+1..]) then Some((NumeralValue(t[..n]), NumeralValue(t[n+1..])))
    else None
  }

  /** The minutes said after the hour word: their value, and how many tokens say it. */
  function Minutes(ts: seq<Token>): (r: (nat, nat))
    ensures r.0 <= 99 && r.1 <= |ts|
  {
    if At(ts, 0) == "et" && Half(At(ts, 1)) then (30, 2)
    else if At(ts, 0) == "et" && At(ts, 1) == "quart" then (15, 2)
    else if At(ts, 0) == "trente" then (30, 1)
    else if At(ts, 0) == "quinze" then (15, 1)
    else if At(ts, 0) == "quarante" && At(ts, 1) == "cinq" then (45, 2)
    else if Numeral(At(ts, 0)) then (NumeralValue(ts[0]), 1)
    else (0, 0)
  }

  predicate EveningCue(ts: seq<Token>) { At(ts, 0) == "du" && (At(ts, 1) == "soir" || At(ts, 1) == "soiree") }

  predicate AfternoonCue(ts: seq<Token>) {
    At(ts, 0) == "de" && At(ts, 1) == "l" && (At(ts, 2) == "apres" || At(ts, 2) == "midi" || At(ts, 2) == "midis")
  }

  /** Morning hours move to the afternoon when a cue follows; the cue itself stays in the list. */
  function Resolve(hour: nat, rest: seq<Token>): (r: nat)
    requires hour <= 99
    ensures r <= 99
  { if hour < 12 && (EveningCue(rest) || AfternoonCue(rest)) then hour + 12 else hour }

  /** The time told at the head of `ts`, and the number of tokens it takes. */
  function TimeAt(ts: seq<Token>): (r: Option<(Token, nat)>)
    requires ts != []
    ensures r.Some? ==> 1 <= r.value.1 <= |ts|
  {
    if Glued(ts[0]).Some? then Some((Clock(Glued(ts[0]).value.0, Glued(ts[0]).value.1), 1))
    else if Numeral(ts[0]) && HourWord(At(ts, 1)) then
      var (minute, width) := Minutes(ts[2..]);
      Some((Clock(Resolve(NumeralValue(ts[0]), ts[2 + width..]), minute), 2 + width))
    else if ts[0] == "midi" then
      if At(ts, 1) == "et" && Half(At(ts, 2)) then Some(("12:30", 3))
      else if At(ts, 1) == "et" && At(ts, 2) == "quart" then Some(("12:15", 3))
      else Some(("12:00", 1))
    else None
  }

  function Times(ts: seq<Token>): seq<Token>
    decreases |ts|
  {
    if ts == [] then []
    else match TimeAt(ts)
      case Some((clock, width)) => [clock] + Times(ts[width..])
      case None => [ts[0]] + Times(ts[1..])
  }

  /** The minutes that follow an hour word: their value, and the position after them. */
  method ReadMinutes(tokens: seq<Token>, start: nat) returns (minute: nat, cursor: nat)
    requires start <= |tokens|
    ensures start <= cursor <= |tokens| && (minute, cursor - start) == Minutes(tokens[start..])
  {
    hide Numeral, NumeralValue, Half;
    NoEmptyWord();
    minute, cursor := 0, start;
    if At(tokens, cursor) == "et" && Half(At(tokens, cursor + 1)) {
      minute, cursor := 30, cursor + 2;
    } else if At(tokens, cursor) == "et" && At(tokens, cursor + 1) == "quart" {
      minute, cursor := 15, cursor + 2;
    } else if At(tokens, cursor) == "trente" {
      minute, cursor := 30, cursor + 1;
    } else if At(tokens, cursor) == "quinze" {
      minute, cursor := 15, cursor + 1;
    } else if At(tokens, cursor) == "quarante" && At(tokens, cursor + 1) == "cinq" {
      minute, cursor := 45, cursor + 2;
    } else if Numeral(At(tokens, cursor)) {
      minute, cursor := NumeralValue(tokens[cursor]), cursor + 1;
    }
  }

  /** One iteration of the loop: what to write at `index`, and where to go on. */
  method Rewrite(tokens: seq<Token>, index: nat) returns (written: Token, next: nat)
    requires index < |tokens|
    ensures index < next <= |tokens|
    ensures match TimeAt(tokens[index..])
            case Some((clock, width)) => written == clock && next == index + width
            case None => written == tokens[index] && next == index + 1
  {
    hide Glued, Numeral, NumeralValue, Half, HourWord, Minutes, Clock, EveningCue, AfternoonCue;
    var token := tokens[index];
    var fused := Glued(token);
    if fused.Some? { return Clock(fused.value.0, fused.value.1), index + 1; }
    if Numeral(token) && index + 1 < |tokens| && HourWord(tokens[index + 1]) {
      var minute, cursor := ReadMinutes(tokens, index + 2);
      var resolved := NumeralValue(token);
      if resolved < 12 && EveningCue(tokens[cursor..]) { resolved := resolved + 12; }
      if resolved < 12 && AfternoonCue(tokens[cursor..]) { resolved := resolved + 12; }
      assert tokens[index..][2..] == tokens[index + 2..];
      assert tokens[index..][cursor - index..] == tokens[cursor..];
      return Clock(resolved, minute), cursor;
    }
    NoEmptyWord();
    if token == "midi" {
      if At(tokens, index + 1) == "et" && Half(At(tokens, index + 2)) { return "12:30", index + 3; }
      if At(tokens, index + 1) == "et" && At(tokens, index + 2) == "quart" { return "12:15", index + 3; }
      return "12:00", index + 1;
    }
    return token, index + 1;
  }

  lemma {:induction false} NoEmptyWord()
    ensures !HourWord("") && !Half("") && !Numeral("")
  {}

  method NormalizeTimes(tokens: seq<Token>) returns (output: seq<Token>)
    ensures output == Times(tokens)
  {
    hide TimeAt;
    output := [];
    var index := 0;
    while index < |tokens|
      invariant index <= |tokens| && Times(tokens) == output + Times(tokens[index..])
    {
      var written, next := Rewrite(tokens, index);
      assert tokens[index..][next - index..] == tokens[next..];
      output := output + [written];
      index := next;
    }
  }

  // ----- what the pass leaves behind

  /** Nothing the pass would rewrite. */
  ghost predicate NoTime(ts: seq<Token>) {
    && (forall i :: 0 <= i < |ts| ==> ts[i] != "midi" && Glued(ts[i]).None?)
    && (forall i :: 0 <= i < |ts| - 1 ==> !(Numeral(ts[i]) && HourWord(ts[i+1])))
  }

  /** A written clock: two digits, a colon, two digits. */
  predicate IsClock(t: Token) { |t| == 5 && t[2] == ':' && Numeral(t[..2]) && Numeral(t[3..]) }

  lemma {:induction false} DigitRoundTrip(d: nat)
    requires d <= 9
    ensures IsDigit(Digit(d)) && DigitValue(Digit(d)) == d
  {}

  lemma {:induction false} PadRoundTrip(v: nat)
    requires v <= 99
    ensures |Pad(v)| == 2 && Numeral(Pad(v)) && NumeralValue(Pad(v)) == v
  {
    hide Digit, IsDigit, DigitValue;
    DigitRoundTrip(v / 10);
    DigitRoundTrip(v % 10);
  }

  lemma {:induction false} ClockShape(h: nat, m: nat)
    requires h <= 99 && m <= 99
    ensures IsClock(Clock(h, m)) && Clock(h, m)[..2] == Pad(h) && Clock(h, m)[3..] == Pad(m)
  {
    hide Pad, Numeral;
    PadRoundTrip(h);
    PadRoundTrip(m);
    assert Clock(h, m)[..2] == Pad(h) && Clock(h, m)[3..] == Pad(m);
  }

  lemma {:induction false} ClockIsInert(t: Token)
    requires IsClock(t)
    ensures !Numeral(t) && !HourWord(t) && t != "midi" && Glued(t).None? && !Letter(t)
  {}

  lemma {:induction false} RewrittenIsClock(ts: seq<Token>)
    requires ts != [] && TimeAt(ts).Some?
    ensures IsClock(TimeAt(ts).value.0)
  {
    hide Glued, Numeral, NumeralValue, Half, HourWord, Minutes, Clock, EveningCue, AfternoonCue, IsClock, Resolve;
    if Glued(ts[0]).Some? {
      ClockShape(Glued(ts[0]).value.0, Glued(ts[0]).value.1);
    } else if Numeral(ts[0]) && HourWord(At(ts, 1)) {
      NoEmptyWord();
      var (minute, width) := Minutes(ts[2..]);
      ClockShape(Resolve(NumeralValue(ts[0]), ts[2 + width..]), minute);
    } else {
      NoonIsClock();
    }
  }

  lemma {:induction false} NoonIsClock()
    ensures IsClock("12:00") && IsClock("12:15") && IsClock("12:30")
  {
    assert "12:00"[..2] == "12" && "12:00"[3..] == "00";
    assert "12:15"[..2] == "12" && "12:15"[3..] == "15";
    assert "12:30"[..2] == "12" && "12:30"[3..] == "30";
  }

  /** The first output token is a clock or the first input token. */
  lemma {:induction false} TimesHead(ts: seq<Token>)
    requires ts != []
    ensures Times(ts) != []
    ensures if TimeAt(ts).Some? then IsClock(Times(ts)[0]) else Times(ts) == [ts[0]] + Times(ts[1..])
  {
    hide TimeAt, IsClock;
    if TimeAt(ts).Some? { RewrittenIsClock(ts); }
  }

  lemma {:induction false} TimesLeaveNoTime(ts: seq<Token>)
    ensures NoTime(Times(ts))
    decreases |ts|
  {
    hide TimeAt, IsClock, Glued, Numeral, HourWord;
    if ts != [] {
      TimesHead(ts);
      var r := Times(ts);
      match TimeAt(ts)
      case Some((clock, width)) =>
        TimesLeaveNoTime(ts[width..]);
        ClockIsInert(r[0]);
        assert r[1..] == Times(ts[width..]);
        NoTimeCons(r);
      case None =>
        TimesLeaveNoTime(ts[1..]);
        assert r[1..] == Times(ts[1..]);
        UntimedHead(ts);
        if |r| > 1 {
          TimesHead(ts[1..]);
          if TimeAt(ts[1..]).Some? { ClockIsInert(r[1]); } else { assert r[1] == ts[1]; }
        }
        NoTimeCons(r);
    }
  }

  lemma {:induction false} NoTimeCons(r: seq<Token>)
    requires r != [] && NoTime(r[1..]) && r[0] != "midi" && Glued(r[0]).None?
    requires |r| > 1 ==> !(Numeral(r[0]) && HourWord(r[1]))
    ensures NoTime(r)
  {
    hide Glued, Numeral, HourWord;
    forall i | 0 <= i < |r| ensures r[i] != "midi" && Glued(r[i]).None? {
      if i > 0 { assert r[i] == r[1..][i-1]; }
    }
    forall i | 0 <= i < |r| - 1 ensures !(Numeral(r[i]) && HourWord(r[i+1])) {
      if i > 0 { assert r[i] == r[1..][i-1] && r[i+1] == r[1..][i]; }
    }
  }

  /** When nothing is rewritten at the head, the head is none of the rewritten forms. */
  lemma {:induction false} UntimedHead(ts: seq<Token>)
    requires ts != []
    ensures TimeAt(ts).None?
            <==> Glued(ts[0]).None? && ts[0] != "midi" && !(|ts| > 1 && Numeral(ts[0]) && HourWord(ts[1]))
  {
    hide Glued, Numeral, HourWord, Half, Minutes, Resolve;
    NoEmptyWord();
  }

  /** The lists the pass leaves unchanged are exactly those without a spoken, glued or noon time. */
  lemma {:induction false} TimesFixpoint(ts: seq<Token>)
    ensures Times(ts) == ts <==> NoTime(ts)
    decreases |ts|
  {
    hide TimeAt, Glued, Numeral, HourWord;
    TimesLeaveNoTime(ts);
    if ts != [] && NoTime(ts) {
      UntimedHead(ts);
      assert NoTime(ts[1..]);
      TimesFixpoint(ts[1..]);
    }
  }
}
