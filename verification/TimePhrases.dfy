/** The times of nb-normalize.ts as they are said, and what each of them reads as. */
module TimePhrases {
  import opened Wrappers
  import opened FrenchNumbers
  import opened SpelledLetters
  import opened SpokenTimes

  datatype MinutePhrase =
    | Sharp
    | HalfPast(word: Token)
    | QuarterPast
    | Figures(minute: Token)
    | InWords(words: seq<Token>)
  {
    predicate Valid() {
      match this
      case HalfPast(word) => word == "demi" || word == "demie"
      case Figures(t) => Numeral(t)
      case InWords(ws) => ws in {["quinze"], ["trente"], ["quarante", "cinq"]}
      case _ => true
    }

    function Said(): seq<Token>
      requires Valid()
    {
      match this
      case Sharp => []
      case HalfPast(word) => ["et", word]
      case QuarterPast => ["et", "quart"]
      case Figures(t) => [t]
      case InWords(ws) => ws
    }

    function Value(): (v: nat)
      requires Valid()
      ensures v <= 99
    {
      match this
      case Sharp => 0
      case HalfPast(_) => 30
      case QuarterPast => 15
      case Figures(t) => NumeralValue(t)
      case InWords(ws) => if ws == ["quinze"] then 15 else if ws == ["trente"] then 30 else 45
    }
  }

  datatype Cue = Plain | Evening(word: Token) | Afternoon(word: Token)
  {
    predicate Valid() {
      match this
      case Plain => true
      case Evening(word) => word in {"soir", "soiree"}
      case Afternoon(word) => word in {"apres", "midi", "midis"}
    }

    function Said(): seq<Token> {
      match this
      case Plain => []
      case Evening(word) => ["du", word]
      case Afternoon(word) => ["de", "l", word]
    }
  }

  function OnClock(hour: nat, cue: Cue): nat { if cue.Plain? || hour >= 12 then hour else hour + 12 }

  /** `rest` begins with the words for an evening or an afternoon. */
  ghost predicate PartOfDay(rest: seq<Token>) { exists c: Cue :: c.Valid() && !c.Plain? && c.Said() <= rest }

  /** `rest` begins with minutes. */
  ghost predicate MinutesFollow(rest: seq<Token>) {
    exists m: MinutePhrase :: m.Valid() && !m.Sharp? && m.Said() <= rest
  }

  /** `rest` begins with the quarter or the half. */
  ghost predicate FractionFollows(rest: seq<Token>) {
    exists m: MinutePhrase :: m.Valid() && (m.HalfPast? || m.QuarterPast?) && m.Said() <= rest
  }

  /** What follows does not go on with the time: no part of the day if none was said, no minutes if nothing was. */
  ghost predicate EndsHere(m: MinutePhrase, cue: Cue, rest: seq<Token>) {
    cue.Plain? ==> !PartOfDay(rest) && (m.Sharp? ==> !MinutesFollow(rest))
  }

  /** The hour that a spoken time before `rest` stands for. */
  ghost function MovedHour(hour: nat, rest: seq<Token>): (r: nat)
    requires hour <= 99
    ensures r <= 99
  { if hour < 12 && PartOfDay(rest) then hour + 12 else hour }

  /** A time as it is said: `19h45` or `19h`, an hour and its minutes, noon and its fraction. */
  datatype Phrase =
    | Fused(hour: Token, minute: Token)
    | Spoken(hour: Token, word: Token, minutes: MinutePhrase)
    | Noon(fraction: MinutePhrase)
  {
    predicate Valid() {
      match this
      case Fused(h, m) => Numeral(h) && (m == "" || (|m| == 2 && Numeral(m)))
      case Spoken(h, w, m) => Numeral(h) && w in {"h", "heure", "heures"} && m.Valid()
      case Noon(m) => m.Valid() && (m.Sharp? || m.HalfPast? || m.QuarterPast?)
    }

    function Said(): seq<Token>
      requires Valid()
    {
      match this
      case Fused(h, m) => [h + "h" + m]
      case Spoken(h, w, m) => [h, w] + m.Said()
      case Noon(m) => ["midi"] + m.Said()
    }

    /** The clock it stands for before `rest`: only a spoken hour listens to the part of the day. */
    ghost function Reads(rest: seq<Token>): Token
      requires Valid()
    {
      match this
      case Fused(h, m) => Clock(NumeralValue(h), if m == "" then 0 else NumeralValue(m))
      case Spoken(h, _, m) => Clock(MovedHour(NumeralValue(h), rest), m.Value())
      case Noon(m) => Clock(12, m.Value())
    }
  }

  ghost predicate SaidAt(p: Phrase, ts: seq<Token>) { p.Valid() && p.Said() <= ts }

  lemma {:induction false} PartOfDayIff(rest: seq<Token>)
    ensures PartOfDay(rest) <==> EveningCue(rest) || AfternoonCue(rest)
  {
    if c: Cue :| c.Valid() && !c.Plain? && c.Said() <= rest {
      var said := c.Said();
      assert said[0] == rest[0] && said[1] == rest[1] && (c.Afternoon? ==> said[2] == rest[2]);
    }
    if EveningCue(rest) {
      var c := Evening(rest[1]);
      assert c.Valid() && c.Said() <= rest;
    } else if AfternoonCue(rest) {
      var c := Afternoon(rest[2]);
      assert c.Valid() && c.Said() <= rest;
    }
  }

  lemma {:induction false} ResolveIsMoved(hour: nat, rest: seq<Token>)
    requires hour <= 99
    ensures Resolve(hour, rest) == MovedHour(hour, rest)
  {
    PartOfDayIff(rest);
  }

  /** Whatever is said for minutes is read whole; nothing longer could be said. */
  lemma {:induction false} MinutesAreLongest(m: MinutePhrase, ts: seq<Token>)
    requires m.Valid() && m.Said() <= ts
    ensures |m.Said()| <= Minutes(ts).1 && (!m.Sharp? ==> |m.Said()| == Minutes(ts).1)
    ensures |m.Said()| == Minutes(ts).1 ==> m.Value() == Minutes(ts).0
  {
    hide Numeral, NumeralValue;
    WordsAreNotNumerals();
    var said := m.Said();
    assert forall i :: 0 <= i < |said| ==> said[i] == ts[i];
    match m
    case Figures(t) => assert ts[0] == t;
    case InWords(ws) => assert ts[0] == ws[0] && (|ws| == 2 ==> ts[1] == ws[1]);
    case HalfPast(word) => assert ts[0] == "et" && ts[1] == word;
    case QuarterPast => assert ts[0] == "et" && ts[1] == "quart";
    case Sharp =>
  }

  /** The phrase that `Minutes` reads. */
  lemma {:induction false} MinutesAreSaid(ts: seq<Token>) returns (m: MinutePhrase)
    ensures m.Valid() && m.Said() <= ts && Minutes(ts) == (m.Value(), |m.Said()|)
  {
    hide Numeral, NumeralValue;
    NoEmptyWord();
    if At(ts, 0) == "et" && Half(At(ts, 1)) { m := HalfPast(ts[1]); }
    else if At(ts, 0) == "et" && At(ts, 1) == "quart" { m := QuarterPast; }
    else if At(ts, 0) == "trente" { m := InWords(["trente"]); }
    else if At(ts, 0) == "quinze" { m := InWords(["quinze"]); }
    else if At(ts, 0) == "quarante" && At(ts, 1) == "cinq" { m := InWords(["quarante", "cinq"]); }
    else if Numeral(At(ts, 0)) { m := Figures(ts[0]); }
    else { m := Sharp; }
  }

  lemma {:induction false} FractionFollowsIff(rest: seq<Token>)
    ensures FractionFollows(rest) <==> At(rest, 0) == "et" && (Half(At(rest, 1)) || At(rest, 1) == "quart")
  {
    if m: MinutePhrase :| m.Valid() && (m.HalfPast? || m.QuarterPast?) && m.Said() <= rest {
      assert m.Said()[0] == rest[0] && m.Said()[1] == rest[1];
    }
    if At(rest, 0) == "et" && (Half(At(rest, 1)) || At(rest, 1) == "quart") {
      var m := if At(rest, 1) == "quart" then QuarterPast else HalfPast(rest[1]);
      assert m.Valid() && m.Said() <= rest;
    }
  }

  lemma {:induction false} MinutesFollowIff(rest: seq<Token>)
    ensures MinutesFollow(rest) <==> Minutes(rest).1 > 0
  {
    hide Minutes;
    var m := MinutesAreSaid(rest);
    if n: MinutePhrase :| n.Valid() && !n.Sharp? && n.Said() <= rest { MinutesAreLongest(n, rest); }
  }

  lemma {:induction false} DecimalIsNumeral(v: nat)
    requires v <= 99
    ensures Numeral(Decimal(v)) && NumeralValue(Decimal(v)) == v
  {
    hide Digit, IsDigit, DigitValue;
    DigitRoundTrip(v / 10);
    DigitRoundTrip(v % 10);
  }

  lemma {:induction false} MinutesSaid(m: MinutePhrase, cue: Cue, rest: seq<Token>)
    requires m.Valid() && cue.Valid() && EndsHere(m, cue, rest)
    ensures Minutes(m.Said() + cue.Said() + rest) == (m.Value(), |m.Said()|)
  {
    hide Minutes, PartOfDay;
    var ts := m.Said() + cue.Said() + rest;
    if m.Sharp? {
      if cue.Plain? {
        assert ts == rest;
        MinutesFollowIff(rest);
      } else {
        CueIsNoMinutes(cue, rest);
        assert ts == cue.Said() + rest;
      }
    }
    MinutesAreLongest(m, ts);
  }

  lemma {:induction false} CueIsNoMinutes(cue: Cue, rest: seq<Token>)
    requires cue.Valid() && !cue.Plain?
    ensures Minutes(cue.Said() + rest).1 == 0
  {
    hide Numeral, NumeralValue;
    WordsAreNotNumerals();
    assert (cue.Said() + rest)[0] == if cue.Evening? then "du" else "de";
  }

  lemma {:induction false} WordsAreNotNumerals()
    ensures !Numeral("et") && !Numeral("du") && !Numeral("de") && !Numeral("trente") && !Numeral("quinze")
            && !Numeral("quarante")
  {
    assert !IsDigit("et"[0]) && !IsDigit("du"[0]) && !IsDigit("de"[0]);
  }

  lemma {:induction false} CueSaid(hour: nat, m: MinutePhrase, cue: Cue, rest: seq<Token>)
    requires hour <= 99 && cue.Valid() && EndsHere(m, cue, rest)
    ensures Resolve(hour, cue.Said() + rest) == OnClock(hour, cue)
  {
    hide MinutesFollow, PartOfDay, Resolve;
    var ts := cue.Said() + rest;
    ResolveIsMoved(hour, ts);
    if cue.Plain? { assert ts == rest; } else { SaysPartOfDay(cue, rest); }
  }

  lemma {:induction false} SaysPartOfDay(cue: Cue, rest: seq<Token>)
    requires cue.Valid() && !cue.Plain?
    ensures PartOfDay(cue.Said() + rest)
  {
    assert cue.Said() <= cue.Said() + rest;
  }

  /** Every spoken form of a time is written as that time; the words for the part of the day stay behind it. */
  lemma {:induction false} SpokenTimeIsRead(hour: Token, word: Token, m: MinutePhrase, cue: Cue, rest: seq<Token>)
    requires Numeral(hour) && HourWord(word) && m.Valid() && cue.Valid() && EndsHere(m, cue, rest)
    ensures Times([hour, word] + (m.Said() + cue.Said() + rest))
            == [Clock(OnClock(NumeralValue(hour), cue), m.Value())] + Times(cue.Said() + rest)
  {
    hide Numeral, NumeralValue, HourWord, Minutes, Resolve, Clock, EndsHere, OnClock, Glued;
    var tail := m.Said() + cue.Said() + rest;
    var ts := [hour, word] + tail;
    NumeralIsNotGlued(hour);
    MinutesSaid(m, cue, rest);
    assert ts[2..] == tail && ts[2 + |m.Said()|..] == cue.Said() + rest;
    CueSaid(NumeralValue(hour), m, cue, rest);
  }

  /** A morning hour is moved by twelve exactly when the words of a part of the day follow, whatever else does. */
  lemma {:induction false} HourIsMovedIff(hour: Token, word: Token, m: MinutePhrase, rest: seq<Token>)
    requires Numeral(hour) && word in {"h", "heure", "heures"} && m.Valid() && (m.Sharp? ==> !MinutesFollow(rest))
    ensures Times([hour, word] + (m.Said() + rest))
            == [Clock(MovedHour(NumeralValue(hour), rest), m.Value())] + Times(rest)
  {
    hide Numeral, NumeralValue, Minutes, Resolve, Clock, Glued, MovedHour;
    var ts := [hour, word] + (m.Said() + rest);
    NumeralIsNotGlued(hour);
    if m.Sharp? {
      MinutesFollowIff(rest);
      assert m.Said() + rest == rest;
    }
    MinutesAreLongest(m, m.Said() + rest);
    assert ts[2..] == m.Said() + rest && ts[2 + |m.Said()|..] == rest;
    ResolveIsMoved(NumeralValue(hour), rest);
  }

  /** So a morning stays a morning. */
  lemma {:induction false} MorningIsNotMoved(hour: Token, rest: seq<Token>)
    requires Numeral(hour)
    ensures Times([hour, "heures", "du", "matin"] + rest)
            == [Clock(NumeralValue(hour), 0)] + Times(["du", "matin"] + rest)
  {
    hide Numeral, NumeralValue, Clock, Times, Minutes;
    var tail := ["du", "matin"] + rest;
    assert !PartOfDay(tail) by { PartOfDayIff(tail); }
    assert !MinutesFollow(tail) by {
      WordsAreNotNumerals();
      MinutesFollowIff(tail);
      NoMinutesInMorning(tail);
    }
    HourIsMovedIff(hour, "heures", Sharp, tail);
    assert [hour, "heures"] + (Sharp.Said() + tail) == [hour, "heures", "du", "matin"] + rest;
  }

  lemma {:induction false} NoMinutesInMorning(ts: seq<Token>)
    requires ts != [] && ts[0] == "du"
    ensures Minutes(ts) == (0, 0)
  {
    hide Numeral, NumeralValue;
    WordsAreNotNumerals();
  }

  lemma {:induction false} NumeralIsNotGlued(t: Token)
    requires Numeral(t)
    ensures Glued(t).None?
  {}

  /** A time glued to its h reads as the same clock. */
  lemma {:induction false} GluedTimeIsRead(hour: nat, minute: nat)
    requires hour <= 99 && minute <= 99
    ensures Glued(Pad(hour) + "h" + Pad(minute)) == Some((hour, minute))
    ensures Glued(Decimal(hour) + "h") == Some((hour, 0))
  {
    hide Pad, Decimal, Numeral, NumeralValue;
    PadRoundTrip(hour);
    PadRoundTrip(minute);
    GluedParts(Pad(hour), Pad(minute));
    DecimalIsNumeral(hour);
    GluedHour(Decimal(hour));
  }

  lemma {:induction false} GluedParts(h: Token, m: Token)
    requires |h| == 2 && |m| == 2 && Numeral(h) && Numeral(m)
    ensures Glued(h + "h" + m) == Some((NumeralValue(h), NumeralValue(m)))
  {
    var t := h + "h" + m;
    assert t[..2] == h && t[3..] == m && t[2] == 'h';
  }

  lemma {:induction false} GluedHour(h: Token)
    requires Numeral(h)
    ensures Glued(h + "h") == Some((NumeralValue(h), 0))
  {
    var t := h + "h";
    assert t[..|h|] == h && t[|h|] == 'h';
    if |h| == 2 { assert t[1] == h[1]; }
  }

  /** Noon said alone, with the quarter or with the half. */
  lemma {:induction false} NoonIsRead(m: MinutePhrase, rest: seq<Token>)
    requires m.Valid() && (m.QuarterPast? || m.HalfPast? || (m.Sharp? && !FractionFollows(rest)))
    ensures Times(["midi"] + m.Said() + rest) == [Clock(12, m.Value())] + Times(rest)
  {
    hide Glued, Numeral, FractionFollows;
    var ts := ["midi"] + m.Said() + rest;
    NoonForms();
    FractionFollowsIff(rest);
    assert ts[1 + |m.Said()|..] == rest;
    assert At(ts, 1) == if m.Sharp? then At(rest, 0) else "et";
  }

  lemma {:induction false} NoonForms()
    ensures Glued("midi").None? && !Numeral("midi")
    ensures Clock(12, 0) == "12:00" && Clock(12, 15) == "12:15" && Clock(12, 30) == "12:30"
  {
    assert !IsDigit("midi"[0]);
    assert "midi"[..1] == "m" && "midi"[..2] == "mi";
  }

  lemma {:induction false} KeptToken(t: Token, rest: seq<Token>)
    requires t in {"de", "du", "l", "soir", "soiree", "apres", "midis"}
    ensures Times([t] + rest) == [t] + Times(rest)
  {
    hide Numeral, Glued;
    KeptTokenForms(t);
    assert ([t] + rest)[1..] == rest;
  }

  lemma {:induction false} KeptTokenForms(t: Token)
    requires t in {"de", "du", "l", "soir", "soiree", "apres", "midis", "midi"}
    ensures Glued(t).None? && !Numeral(t)
  {
    assert !IsDigit(t[0]);
    assert t[..1][0] == t[0];
    if |t| >= 2 { assert t[..2][0] == t[0]; }
  }

  /** The words for a part of the day stay as they are, whatever follows, unless they end in `midi`: that is noon. */
  lemma {:induction false} CueSurvivesIff(cue: Cue, rest: seq<Token>)
    requires cue.Valid()
    ensures Times(cue.Said() + rest) == cue.Said() + Times(rest) <==> cue != Afternoon("midi")
  {
    hide Times;
    match cue
    case Plain => assert [] + rest == rest && [] + Times(rest) == Times(rest);
    case Evening(word) =>
      assert cue.Said() + rest == ["du"] + ([word] + rest);
      KeptToken("du", [word] + rest);
      KeptToken(word, rest);
    case Afternoon(word) =>
      assert cue.Said() + rest == ["de"] + (["l"] + ([word] + rest));
      KeptToken("de", ["l"] + ([word] + rest));
      KeptToken("l", [word] + rest);
      if word == "midi" {
        NoonIsRewritten(rest);
        assert (["de"] + (["l"] + Times([word] + rest)))[2] == Times([word] + rest)[0];
        assert (cue.Said() + Times(rest))[2] == word;
      } else {
        KeptToken(word, rest);
      }
  }

  lemma {:induction false} NoonIsRewritten(rest: seq<Token>)
    ensures Times(["midi"] + rest) != [] && Times(["midi"] + rest)[0] != "midi"
  {
    hide Times, IsClock, TimeAt;
    var ts := ["midi"] + rest;
    TimesHead(ts);
    UntimedHead(ts);
    ClockIsInert(Times(ts)[0]);
  }

  /**
   * After a spoken time, all that follows stays as it is exactly when the part of the day does not end in
   * `midi` and nothing after it is a time.
   */
  lemma {:induction false} PartOfDayIsLeftIff(hour: Token, word: Token, m: MinutePhrase, cue: Cue, rest: seq<Token>)
    requires Numeral(hour) && HourWord(word) && m.Valid() && cue.Valid() && EndsHere(m, cue, rest)
    ensures Times([hour, word] + (m.Said() + cue.Said() + rest))
            == [Clock(OnClock(NumeralValue(hour), cue), m.Value())] + (cue.Said() + rest)
            <==> cue != Afternoon("midi") && NoTime(rest)
  {
    hide Times, Clock, NoTime, NumeralValue;
    SpokenTimeIsRead(hour, word, m, cue, rest);
    var clock := Clock(OnClock(NumeralValue(hour), cue), m.Value());
    SameTail(clock, Times(cue.Said() + rest), cue.Said() + rest);
    CueSurvivesIff(cue, rest);
    TimesFixpoint(rest);
    if cue == Afternoon("midi") {
      TimesFixpoint(cue.Said() + rest);
      NoonIsTime(cue.Said() + rest, 2);
    } else {
      SameRest(cue.Said(), Times(rest), rest);
    }
  }

  lemma {:induction false} NoonIsTime(ts: seq<Token>, i: nat)
    requires i < |ts| && ts[i] == "midi"
    ensures !NoTime(ts)
  {
    hide Glued, Numeral, HourWord;
  }

  lemma {:induction false} SameTail(t: Token, xs: seq<Token>, ys: seq<Token>)
    ensures [t] + xs == [t] + ys <==> xs == ys
  {
    SameRest([t], xs, ys);
  }

  lemma {:induction false} SameRest(before: seq<Token>, xs: seq<Token>, ys: seq<Token>)
    ensures before + xs == before + ys <==> xs == ys
  {
    assert (before + xs)[|before|..] == xs && (before + ys)[|before|..] == ys;
  }

  /** So after `de l apres midi`, which is the cue `de l apres` and a noon, the last word is written as 12:00. */
  lemma {:induction false} AfternoonCueIsRewritten(hour: Token, word: Token, m: MinutePhrase, rest: seq<Token>)
    requires Numeral(hour) && NumeralValue(hour) < 12 && HourWord(word) && m.Valid() && !FractionFollows(rest)
    ensures Times([hour, word] + (m.Said() + (["de", "l", "apres", "midi"] + rest)))
            == [Clock(NumeralValue(hour) + 12, m.Value())] + (["de", "l", "apres", "12:00"] + Times(rest))
  {
    hide Glued, Numeral, NumeralValue, HourWord, Clock, Times;
    var cue, tail := Afternoon("apres"), ["midi"] + rest;
    SpokenTimeIsRead(hour, word, m, cue, tail);
    assert m.Said() + cue.Said() + tail == m.Said() + (["de", "l", "apres", "midi"] + rest);
    CueSurvivesIff(cue, tail);
    NoonForms();
    NoonIsRead(Sharp, rest);
    assert ["midi"] + Sharp.Said() + rest == tail;
    assert cue.Said() + (["12:00"] + Times(rest)) == ["de", "l", "apres", "12:00"] + Times(rest);
  }

  // ----- what the pass reads at each place

  /** `p` is said at the head of `ts`, and nothing longer is. */
  ghost predicate IsLongest(p: Phrase, ts: seq<Token>) {
    SaidAt(p, ts) && forall q: Phrase :: SaidAt(q, ts) ==> |q.Said()| <= |p.Said()|
  }

  /** The phrase that the pass reads at the head of `ts`. */
  lemma {:induction false} PhraseRead(ts: seq<Token>) returns (p: Phrase)
    requires ts != [] && TimeAt(ts).Some?
    ensures SaidAt(p, ts) && TimeAt(ts) == Some((p.Reads(ts[|p.Said()|..]), |p.Said()|))
  {
    hide Numeral, NumeralValue, Clock, Minutes, Resolve, MovedHour, Half, HourWord, Glued;
    if Glued(ts[0]).Some? {
      p := FusedRead(ts[0]);
    } else if Numeral(ts[0]) && HourWord(At(ts, 1)) {
      NoEmptyWord();
      HourWordIs(ts[1]);
      var m := MinutesAreSaid(ts[2..]);
      p := Spoken(ts[0], ts[1], m);
      assert ts == [ts[0], ts[1]] + ts[2..];
      ResolveIsMoved(NumeralValue(ts[0]), ts[2 + |m.Said()|..]);
    } else {
      p := NoonRead(ts);
    }
  }

  lemma {:induction false} HourWordIs(word: Token)
    ensures HourWord(word) <==> word in {"h", "heure", "heures"}
  {}

  lemma {:induction false} FusedRead(t: Token) returns (p: Phrase)
    requires Glued(t).Some?
    ensures p.Fused? && p.Valid() && p.Said() == [t]
    ensures Clock(Glued(t).value.0, Glued(t).value.1) == p.Reads([])
  {
    hide Numeral, NumeralValue, Clock;
    var n := if Numeral(t[..1]) && t[1] == 'h' then 1 else 2;
    p := Fused(t[..n], t[n+1..]);
    assert t == t[..n] + "h" + t[n+1..];
  }

  lemma {:induction false} NoonRead(ts: seq<Token>) returns (p: Phrase)
    requires ts != [] && TimeAt(ts).Some? && Glued(ts[0]).None? && !(Numeral(ts[0]) && HourWord(At(ts, 1)))
    ensures p.Noon? && SaidAt(p, ts) && TimeAt(ts) == Some((p.Reads(ts[|p.Said()|..]), |p.Said()|))
  {
    hide Glued, Numeral, HourWord;
    NoonForms();
    p := Noon(if At(ts, 1) == "et" && Half(At(ts, 2)) then HalfPast(ts[2])
              else if At(ts, 1) == "et" && At(ts, 2) == "quart" then QuarterPast else Sharp);
  }

  /** Any phrase said at the head of `ts` makes the pass read there, and read no less. */
  lemma {:induction false} PhraseIsRead(ts: seq<Token>, q: Phrase)
    requires ts != [] && SaidAt(q, ts)
    ensures TimeAt(ts).Some? && |q.Said()| <= TimeAt(ts).value.1
    ensures |q.Said()| == TimeAt(ts).value.1 ==> TimeAt(ts).value.0 == q.Reads(ts[|q.Said()|..])
  {
    hide Numeral, NumeralValue, Clock, Minutes, Resolve, MovedHour, Glued, HourWord;
    assert q.Said()[0] == ts[0];
    match q
    case Fused(h, m) => FusedIsGlued(h, m);
    case Spoken(h, w, m) =>
      assert q.Said()[1] == ts[1];
      NumeralIsNotGlued(h);
      HourWordIs(w);
      assert m.Said() <= ts[2..] by { assert q.Said()[2..] == m.Said(); }
      MinutesAreLongest(m, ts[2..]);
      assert ts[2..][|m.Said()|..] == ts[|q.Said()|..];
      ResolveIsMoved(NumeralValue(h), ts[|q.Said()|..]);
    case Noon(m) => NoonIsPhrase(ts, m);
  }

  lemma {:induction false} NoonIsPhrase(ts: seq<Token>, m: MinutePhrase)
    requires SaidAt(Noon(m), ts)
    ensures TimeAt(ts).Some? && |Noon(m).Said()| <= TimeAt(ts).value.1
    ensures |Noon(m).Said()| == TimeAt(ts).value.1 ==> TimeAt(ts).value.0 == Noon(m).Reads(ts[|Noon(m).Said()|..])
  {
    hide Glued, Numeral, HourWord;
    NoonForms();
    var said := Noon(m).Said();
    assert said[0] == ts[0] && (|said| == 3 ==> said[1] == ts[1] && said[2] == ts[2]);
  }

  lemma {:induction false} FusedIsGlued(h: Token, m: Token)
    requires Fused(h, m).Valid()
    ensures Glued(h + "h" + m) == Some((NumeralValue(h), if m == "" then 0 else NumeralValue(m)))
  {
    hide NumeralValue;
    var t := h + "h" + m;
    assert t[..|h|] == h && t[|h|] == 'h' && t[|h|+1..] == m;
    if |h| == 2 { assert t[1] == h[1]; }
  }

  /** Main result: at each place the pass reads the longest phrase said there, and nothing else. */
  lemma {:induction false} LongestPhraseIsRead(ts: seq<Token>, clock: Token, width: nat)
    requires ts != []
    ensures TimeAt(ts) == Some((clock, width))
            <==> exists p: Phrase :: IsLongest(p, ts) && width == |p.Said()| && clock == p.Reads(ts[width..])
  {
    hide TimeAt, Clock;
    if TimeAt(ts) == Some((clock, width)) {
      var p := PhraseRead(ts);
      forall q: Phrase | SaidAt(q, ts) ensures |q.Said()| <= |p.Said()| { PhraseIsRead(ts, q); }
      assert IsLongest(p, ts);
    }
    if p: Phrase :| IsLongest(p, ts) && width == |p.Said()| && clock == p.Reads(ts[width..]) {
      PhraseIsRead(ts, p);
      var r := PhraseRead(ts);
      assert SaidAt(r, ts);
    }
  }
}
