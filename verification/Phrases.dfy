/**
 * Texts around the normaliser (nb-normalize.ts): splitting into tokens, the
 * canonical text, and the search for a phrase on padded strings.
 */
module Phrases {
  import opened Wrappers
  import opened FrenchNumbers
  import opened SpelledLetters
  import opened SpokenTimes
  import opened Normalizer
  import opened Texts

  predicate TokenChar(c: char) { 'a' <= c <= 'z' || '0' <= c <= '9' || c == ':' }

  predicate IsToken(t: Token) { t != "" && forall i :: 0 <= i < |t| ==> TokenChar(t[i]) }

  predicate Tokens(ts: seq<Token>) { forall i :: 0 <= i < |ts| ==> IsToken(ts[i]) }

  /** Length of the token at the head of a text. */
  function Span(s: string): (n: nat)
    ensures n <= |s| && (forall i :: 0 <= i < n ==> TokenChar(s[i])) && (n < |s| ==> !TokenChar(s[n]))
  { if s == "" || !TokenChar(s[0]) then 0 else 1 + Span(s[1..]) }

  /** The maximal runs of token characters; everything else separates. */
  function Split(s: string): (ts: seq<Token>)
    ensures Tokens(ts)
    decreases |s|
  {
    if s == "" then []
    else if TokenChar(s[0]) then
      assert forall i :: 0 <= i < Span(s) ==> s[..Span(s)][i] == s[i];
      [s[..Span(s)]] + Split(s[Span(s)..])
    else Split(s[1..])
  }

  /** Token characters and spaces only. */
  predicate Plain(s: string) { forall i :: 0 <= i < |s| ==> TokenChar(s[i]) || s[i] == ' ' }

  /** `fold` stands for lower-casing and accent removal, which the model does not define. */
  function NormalizeText(fold: string -> string, text: string): string {
    JoinSpaces(Normalize(Split(fold(text))))
  }

  predicate OccursAt(hay: string, needle: string, k: nat) {
    k + |needle| <= |hay| && hay[k..k + |needle|] == needle
  }

  predicate Includes(hay: string, needle: string) {
    exists k :: 0 <= k <= |hay| && OccursAt(hay, needle, k)
  }

  predicate ContainsNormalizedPhrase(fold: string -> string, transcript: string, phrase: string) {
    var p := NormalizeText(fold, phrase);
    p != "" && Includes(" " + NormalizeText(fold, transcript) + " ", " " + p + " ")
  }

  // ----- splitting undoes joining

  lemma {:induction false} SplitToken(t: Token, rest: string)
    requires IsToken(t) && (rest == "" || !TokenChar(rest[0]))
    ensures Split(t + rest) == [t] + Split(rest)
  {
    var s := t + rest;
    SpanIs(s, |t|);
    assert s[..|t|] == t && s[|t|..] == rest;
  }

  lemma {:induction false} SpanIs(s: string, n: nat)
    requires n <= |s| && (forall i :: 0 <= i < n ==> TokenChar(s[i])) && (n < |s| ==> !TokenChar(s[n]))
    ensures Span(s) == n
  {
    hide TokenChar;
  }

  lemma {:induction false} TokenCharIs(c: char)
    ensures TokenChar(c) <==> c in "abcdefghijklmnopqrstuvwxyz0123456789:"
  {
    if TokenChar(c) { CharAt(c); }
  }

  lemma {:induction false} CharAt(c: char)
    requires TokenChar(c)
    ensures c in "abcdefghijklmnopqrstuvwxyz0123456789:"
  {
    var all := "abcdefghijklmnopqrstuvwxyz0123456789:";
    var i := if c == ':' then 36 else if c <= '9' then 26 + (c - '0') as int else (c - 'a') as int;
    assert all[i] == c;
  }

  /** A character that is none of these separates what is before from what is after. */
  lemma {:induction false} SplitAt(a: string, c: char, b: string)
    requires c !in "abcdefghijklmnopqrstuvwxyz0123456789:"
    ensures Split(a + [c] + b) == Split(a) + Split(b)
    decreases |a|
  {
    hide TokenChar;
    TokenCharIs(c);
    var s := a + [c] + b;
    if a == "" {
      assert s[1..] == b && s[0] == c;
      SplitNothing();
    } else if TokenChar(a[0]) {
      var n := Span(a);
      assert s[|a|] == c && forall i :: 0 <= i < |a| ==> s[i] == a[i];
      SpanIs(s, n);
      assert s[..n] == a[..n] && s[n..] == a[n..] + [c] + b;
      SplitAt(a[n..], c, b);
    } else {
      assert s[0] == a[0] && s[1..] == a[1..] + [c] + b;
      SplitAt(a[1..], c, b);
    }
  }

  /** A text of such characters only is one token: with the law above, that is all there is to splitting. */
  lemma {:induction false} SplitWord(w: string)
    requires w != "" && forall i :: 0 <= i < |w| ==> w[i] in "abcdefghijklmnopqrstuvwxyz0123456789:"
    ensures Split(w) == [w] && Split("") == []
  {
    hide Split, TokenChar;
    SplitNothing();
    forall i | 0 <= i < |w| ensures TokenChar(w[i]) { TokenCharIs(w[i]); }
    SplitOne(w);
  }

  lemma {:induction false} SplitNothing()
    ensures Split("") == []
  {}

  lemma {:induction false} SplitOne(t: Token)
    requires IsToken(t)
    ensures Split(t) == [t]
  {
    hide IsToken, Split;
    SplitToken(t, "");
    SplitNothing();
    assert t + "" == t;
  }

  lemma {:induction false} SplitJoin(ts: seq<Token>)
    requires Tokens(ts)
    ensures Split(JoinSpaces(ts)) == ts
  {
    if |ts| == 1 {
      SplitToken(ts[0], "");
      assert ts[0] + "" == ts[0];
    } else if |ts| > 1 {
      var rest := JoinSpaces(ts[1..]);
      SplitJoin(ts[1..]);
      SplitToken(ts[0], " " + rest);
      assert ts[0] + (" " + rest) == JoinSpaces(ts) && (" " + rest)[1..] == rest;
    }
  }

  lemma {:induction false} JoinIsPlain(ts: seq<Token>)
    requires Tokens(ts)
    ensures Plain(JoinSpaces(ts)) && (JoinSpaces(ts) == "" <==> ts == [])
  {
    hide TokenChar;
    if |ts| > 1 { JoinIsPlain(ts[1..]); }
  }

  // ----- every pass yields tokens

  lemma {:induction false} ConcatIsToken(ts: seq<Token>)
    requires Letters(ts)
    ensures ts != [] ==> IsToken(Concat(ts))
  {
    if ts != [] { ConcatIsToken(ts[1..]); }
  }

  lemma {:induction false} JoinKeepsTokens(ts: seq<Token>)
    requires Tokens(ts)
    ensures Tokens(Join(ts))
    decreases |ts|
  {
    hide IsToken, Concat;
    if ts != [] {
      var n := if Run(ts) >= 3 then Run(ts) else 1;
      JoinKeepsTokens(ts[n..]);
      ConcatIsToken(ts[..Run(ts)]);
    }
  }

  lemma {:induction false} WrittenIsToken(v: Value)
    requires v.Valid()
    ensures IsToken(Written(v)) <==> v.Number?
  {
    if v.Inherited? { assert Written(v)[8] == OBJECT_TEXT[8] == ' '; }
  }

  /** The inherited key is read where it stands, and only there. */
  lemma {:induction false} InheritedIsFirst(ts: seq<Token>, v: Value)
    requires ParseNumber(ts) == Some(v)
    ensures ts != [] && (v.Inherited? <==> ts[0] == INHERITED) && INHERITED !in ts[1..]
  {
    hide ParseNumber, UNITS, TENS;
    ParseIffDenotes(ts, v);
    WordTables();
  }

  lemma {:induction false} NumbersTokens(ts: seq<Token>)
    requires Tokens(ts)
    ensures Tokens(Numbers(ts)) <==> INHERITED !in ts
    decreases |ts|
  {
    hide IsToken, LongestNumber, Written, ParseNumber, Numbers;
    if ts == [] {
      NumbersEnd([]);
      assert [] + Numbers(ts) == Numbers(ts);
    } else {
      NumbersUnfold(ts);
      match LongestNumber(ts, |ts|)
      case Some((w, v)) =>
        WrittenIsToken(v);
        InheritedIsFirst(ts[..w], v);
        NumbersTokens(ts[w..]);
        TokensCons(Written(v), Numbers(ts[w..]));
        assert ts == [ts[0]] + ts[..w][1..] + ts[w..];
      case None =>
        UnmatchedIsNoWord(ts);
        NumbersTokens(ts[1..]);
        TokensCons(ts[0], Numbers(ts[1..]));
        assert ts == [ts[0]] + ts[1..];
    }
  }

  lemma {:induction false} TokensCons(t: Token, ts: seq<Token>)
    ensures Tokens([t] + ts) <==> IsToken(t) && Tokens(ts)
  {
    hide IsToken;
    var all := [t] + ts;
    assert all[0] == t && forall i :: 0 <= i < |ts| ==> all[i+1] == ts[i];
  }

  lemma {:induction false} ClockIsToken(t: Token)
    requires IsClock(t)
    ensures IsToken(t)
  {
    assert t[..2][0] == t[0] && t[..2][1] == t[1] && t[3..][0] == t[3] && t[3..][1] == t[4];
  }

  /** What the time pass reads is tokens only. */
  lemma {:induction false} TimeWordsAreTokens(t: Token)
    ensures Glued(t).Some? || Numeral(t) || HourWord(t) || Half(t) ==> IsToken(t)
    ensures t in {"et", "quart", "trente", "quinze", "quarante", "cinq", "midi"} ==> IsToken(t)
  {
    hide Glued;
    if Glued(t).Some? { GluedIsToken(t); }
  }

  lemma {:induction false} GluedIsToken(t: Token)
    requires Glued(t).Some?
    ensures IsToken(t)
  {
    var n := if |t| >= 2 && Numeral(t[..1]) && t[1] == 'h' then 1 else 2;
    assert forall i :: 0 <= i < n ==> t[..n][i] == t[i];
    assert forall i :: n < i < |t| ==> t[n+1..][i-n-1] == t[i];
  }

  lemma {:induction false} TimeIsTokens(ts: seq<Token>)
    requires ts != [] && TimeAt(ts).Some?
    ensures forall i :: 0 <= i < TimeAt(ts).value.1 ==> IsToken(ts[i])
  {
    hide Glued, Numeral, NumeralValue, HourWord, Half, Clock, Resolve, IsToken;
    NoEmptyWord();
    forall i | 0 <= i < TimeAt(ts).value.1 ensures IsToken(ts[i]) {
      TimeWordsAreTokens(ts[i]);
      if i >= 2 { assert ts[i] == ts[2..][i-2]; }
    }
  }

  lemma {:induction false} TimesTokens(ts: seq<Token>)
    ensures Tokens(Times(ts)) <==> Tokens(ts)
    decreases |ts|
  {
    hide IsToken, TimeAt, IsClock, Tokens;
    if ts == [] {
      assert Times(ts) == ts;
    } else {
      var w := if TimeAt(ts).Some? then TimeAt(ts).value.1 else 1;
      TimesHead(ts);
      TimesTokens(ts[w..]);
      if TimeAt(ts).Some? {
        TimeIsTokens(ts);
        ClockIsToken(Times(ts)[0]);
      }
      TokensCons(Times(ts)[0], Times(ts[w..]));
      TokensSplit(ts, w);
    }
  }

  lemma {:induction false} TokensSplit(ts: seq<Token>, w: nat)
    requires w <= |ts|
    ensures Tokens(ts) <==> (forall i :: 0 <= i < w ==> IsToken(ts[i])) && Tokens(ts[w..])
  {
    hide IsToken;
    assert forall i :: w <= i < |ts| ==> ts[w..][i-w] == ts[i];
  }

  /** Normalised tokens are tokens, unless the key that the tables inherit is among the joined ones. */
  lemma {:induction false} NormalizeKeepsTokens(ts: seq<Token>)
    requires Tokens(ts)
    ensures Tokens(Normalize(ts)) <==> INHERITED !in Join(ts)
  {
    hide Tokens;
    JoinKeepsTokens(ts);
    NumbersTokens(Join(ts));
    TimesTokens(Numbers(Join(ts)));
  }

  // ----- what normalised tokens look like

  /** A token, or the text of the inherited function with at most a digit after it. */
  ghost predicate Known(t: Token) { IsToken(t) || exists v: Value :: v.Valid() && v.Inherited? && t == Written(v) }

  ghost predicate AllKnown(ts: seq<Token>) { forall i :: 0 <= i < |ts| ==> Known(ts[i]) }

  lemma {:induction false} WrittenIsKnown(v: Value)
    requires v.Valid()
    ensures Known(Written(v))
  {
    WrittenIsToken(v);
  }

  lemma {:induction false} KnownCons(t: Token, ts: seq<Token>)
    requires Known(t) && AllKnown(ts)
    ensures AllKnown([t] + ts)
  {
    hide Known;
  }

  lemma {:induction false} NumbersAreKnown(ts: seq<Token>)
    requires Tokens(ts)
    ensures AllKnown(Numbers(ts))
    decreases |ts|
  {
    hide IsToken, LongestNumber, Written, ParseNumber, Numbers, AllKnown;
    if ts == [] {
      NumbersEnd([]);
      assert [] + Numbers(ts) == Numbers(ts);
      NothingIsKnown();
    } else {
      NumbersUnfold(ts);
      match LongestNumber(ts, |ts|)
      case Some((w, v)) =>
        WrittenIsKnown(v);
        NumbersAreKnown(ts[w..]);
        KnownCons(Written(v), Numbers(ts[w..]));
      case None =>
        NumbersAreKnown(ts[1..]);
        KnownCons(ts[0], Numbers(ts[1..]));
    }
  }

  lemma {:induction false} NothingIsKnown()
    ensures AllKnown([])
  {}

  lemma {:induction false} TimesAreKnown(ts: seq<Token>)
    requires AllKnown(ts)
    ensures AllKnown(Times(ts))
    decreases |ts|
  {
    hide TimeAt, IsClock, IsToken, Written;
    if ts != [] {
      var w := if TimeAt(ts).Some? then TimeAt(ts).value.1 else 1;
      TimesHead(ts);
      TimesAreKnown(ts[w..]);
      if TimeAt(ts).Some? { ClockIsToken(Times(ts)[0]); }
      KnownCons(Times(ts)[0], Times(ts[w..]));
    }
  }

  lemma {:induction false} NormalizedIsKnown(ts: seq<Token>)
    requires Tokens(ts)
    ensures AllKnown(Normalize(ts))
  {
    hide AllKnown, Tokens;
    JoinKeepsTokens(ts);
    NumbersAreKnown(Join(ts));
    TimesAreKnown(Numbers(Join(ts)));
  }

  // ----- their words

  predicate IsWord(t: string) { t != "" && forall i :: 0 <= i < |t| ==> !Space(t[i]) }

  ghost predicate AllWords(ts: seq<string>) { forall i :: 0 <= i < |ts| ==> IsWord(ts[i]) }

  lemma {:induction false} WordsOfWord(t: string)
    requires IsWord(t)
    ensures Words(t) == [t]
  {
    hide Space;
    WordLengthIs(t, |t|);
    assert t[..|t|] == t && t[|t|..] == "";
  }

  lemma {:induction false} WordsAreWords(s: string)
    ensures AllWords(Words(s))
    decreases |s|
  {
    hide Space;
    if s != "" {
      var n := if Space(s[0]) then 1 else WordLength(s);
      WordsAreWords(s[n..]);
    }
  }

  lemma {:induction false} AllAreWords(parts: seq<string>)
    ensures AllWords(WordsOfAll(parts))
  {
    hide IsWord;
    if parts != [] {
      WordsAreWords(parts[0]);
      AllAreWords(parts[1..]);
    }
  }

  lemma {:induction false} TokenIsWord(t: Token)
    requires IsToken(t)
    ensures IsWord(t)
  {}

  /** The words of the function's text. */
  const OBJECT_WORDS: seq<string> := ["function", "Object()", "{", "[native", "code]"]

  lemma {:induction false} ObjectWords(digit: string)
    requires digit == "" || IsWord(digit)
    ensures Words(OBJECT_TEXT + digit) == OBJECT_WORDS + ["}" + digit]
    ensures JoinSpaces(OBJECT_WORDS + ["}" + digit]) == OBJECT_TEXT + digit
  {
    hide Space, Words, OBJECT_TEXT, OBJECT_WORDS, JoinSpaces;
    BlankIsSpace();
    ObjectWordsAreWords(digit);
    var last := "}" + digit;
    WordsOfWord(last);
    var s4 := "code]" + [' '] + last;
    var s3 := "[native" + [' '] + s4;
    var s2 := "{" + [' '] + s3;
    var s1 := "Object()" + [' '] + s2;
    WordsSplit("code]", ' ', last);
    WordsSplit("[native", ' ', s4);
    WordsSplit("{", ' ', s3);
    WordsSplit("Object()", ' ', s2);
    WordsSplit("function", ' ', s1);
    ObjectText(digit);
    JoinObjectWords(last);
    ListObjectWords(last);
  }

  lemma {:induction false} ObjectText(digit: string)
    ensures OBJECT_TEXT + digit
            == "function" + [' ']
              + ("Object()" + [' '] + ("{" + [' '] + ("[native" + [' '] + ("code]" + [' '] + ("}" + digit)))))
  {
    hide Space;
  }

  lemma {:induction false} ListObjectWords(last: string)
    ensures ["function"] + (["Object()"] + (["{"] + (["[native"] + (["code]"] + [last])))) == OBJECT_WORDS + [last]
  {}

  lemma {:induction false} JoinObjectWords(last: string)
    ensures JoinSpaces(OBJECT_WORDS + [last])
            == "function" + [' ']
              + ("Object()" + [' '] + ("{" + [' '] + ("[native" + [' '] + ("code]" + [' '] + last))))
  {
    var w4 := ["code]", last];
    var w3 := ["[native"] + w4;
    var w2 := ["{"] + w3;
    var w1 := ["Object()"] + w2;
    var w0 := ["function"] + w1;
    assert OBJECT_WORDS + [last] == w0;
    assert w4[1..] == [last] && w3[1..] == w4 && w2[1..] == w3 && w1[1..] == w2 && w0[1..] == w1;
    assert JoinSpaces(w4) == "code]" + " " + last;
    assert JoinSpaces(w3) == "[native" + " " + JoinSpaces(w4);
    assert JoinSpaces(w2) == "{" + " " + JoinSpaces(w3);
    assert JoinSpaces(w1) == "Object()" + " " + JoinSpaces(w2);
    assert JoinSpaces(w0) == "function" + " " + JoinSpaces(w1);
  }

  lemma {:induction false} ObjectWordsAreWords(digit: string)
    requires digit == "" || IsWord(digit)
    ensures IsWord("}" + digit)
    ensures Words("function") == ["function"] && Words("Object()") == ["Object()"] && Words("{") == ["{"]
    ensures Words("[native") == ["[native"] && Words("code]") == ["code]"]
  {
    hide Words;
    LiteralWords();
    WordsOfWord("function");
    WordsOfWord("Object()");
    WordsOfWord("{");
    WordsOfWord("[native");
    WordsOfWord("code]");
    assert IsWord("}" + digit) by { assert !Space('}'); }
  }

  lemma {:induction false} LiteralWords()
    ensures IsWord("function") && IsWord("Object()") && IsWord("{") && IsWord("[native") && IsWord("code]")
  {
    hide Words;
  }

  /** A normalised token is its words, one blank apart. */
  lemma {:induction false} KnownIsItsWords(t: Token)
    requires Known(t)
    ensures JoinSpaces(Words(t)) == t && Words(t) != []
    ensures IsToken(t) ==> Words(t) == [t]
    ensures !IsToken(t) ==> "{" in Words(t)
  {
    hide IsToken, Space, Words, JoinSpaces, OBJECT_TEXT;
    if IsToken(t) {
      TokenIsWord(t);
      WordsOfWord(t);
      JoinOne(t);
    } else {
      var v: Value :| v.Valid() && v.Inherited? && t == Written(v);
      var digit := if v.digit.Some? then Decimal(v.digit.value) else "";
      if v.digit.Some? {
        WrittenIsToken(Number(v.digit.value));
        TokenIsWord(digit);
      }
      ObjectWords(digit);
      assert (OBJECT_WORDS + ["}" + digit])[2] == "{";
    }
  }

  lemma {:induction false} JoinOne(t: string)
    ensures JoinSpaces([t]) == t
  {}

  lemma {:induction false} JoinSpacesAppend(a: seq<string>, b: seq<string>)
    requires a != [] && b != []
    ensures JoinSpaces(a + b) == JoinSpaces(a) + " " + JoinSpaces(b)
  {
    if |a| == 1 {
      assert (a + b)[1..] == b;
    } else {
      JoinSpacesAppend(a[1..], b);
      assert (a + b)[1..] == a[1..] + b;
    }
  }

  lemma {:induction false} TextIsItsWords(ts: seq<Token>)
    requires AllKnown(ts)
    ensures JoinSpaces(ts) == JoinSpaces(WordsOfAll(ts)) && (ts != [] ==> WordsOfAll(ts) != [])
  {
    hide Known, Words;
    if |ts| == 1 {
      KnownIsItsWords(ts[0]);
      assert WordsOfAll(ts[1..]) == [];
      assert Words(ts[0]) + [] == Words(ts[0]);
    } else if ts != [] {
      KnownIsItsWords(ts[0]);
      TextIsItsWords(ts[1..]);
      JoinSpacesAppend(Words(ts[0]), WordsOfAll(ts[1..]));
    }
  }

  lemma {:induction false} TokensAreTheirWords(ts: seq<Token>)
    requires Tokens(ts)
    ensures WordsOfAll(ts) == ts
  {
    hide IsToken, Words;
    if ts != [] {
      TokenIsWord(ts[0]);
      WordsOfWord(ts[0]);
      TokensAreTheirWords(ts[1..]);
    }
  }

  // ----- the padded search is a search for a sublist

  /** `" a b c "`: every token between two spaces. */
  function Padded(ts: seq<Token>): string {
    if ts == [] then " " else " " + ts[0] + Padded(ts[1..])
  }

  lemma {:induction false} PaddedIsJoin(ts: seq<Token>)
    requires ts != []
    ensures " " + JoinSpaces(ts) + " " == Padded(ts)
  {
    if |ts| > 1 {
      PaddedIsJoin(ts[1..]);
      assert " " + JoinSpaces(ts) + " " == " " + ts[0] + (" " + JoinSpaces(ts[1..]) + " ");
    }
  }

  predicate SublistAt(ts: seq<Token>, ps: seq<Token>, i: nat) { i + |ps| <= |ts| && ts[i..i + |ps|] == ps }

  predicate Sublist(ts: seq<Token>, ps: seq<Token>) { exists i :: 0 <= i <= |ts| && SublistAt(ts, ps, i) }

  lemma {:induction false} PaddedUnfold(ts: seq<Token>)
    requires ts != []
    ensures Padded(ts) == " " + ts[0] + Padded(ts[1..])
  {}

  lemma {:induction false} PaddedAppend(a: seq<Token>, b: seq<Token>)
    ensures |Padded(a)| >= 1 && Padded(a + b) == Padded(a)[..|Padded(a)|-1] + Padded(b)
  {
    hide Padded;
    if a == [] {
      PaddedNothing();
      assert a + b == b && " "[..0] + Padded(b) == Padded(b);
    } else {
      PaddedAppend(a[1..], b);
      PaddedUnfold(a);
      PaddedUnfold(a + b);
      assert (a + b)[1..] == a[1..] + b && (a + b)[0] == a[0];
      LastApart(" " + a[0], Padded(a[1..]), Padded(b));
    }
  }

  lemma {:induction false} LastApart(head: string, rest: string, more: string)
    requires rest != ""
    ensures (head + rest)[..|head + rest|-1] + more == head + (rest[..|rest|-1] + more)
  {
    assert (head + rest)[..|head + rest|-1] == head + rest[..|rest|-1];
  }

  /** Two texts that begin with a word each agree on it, when one is a prefix of the other. */
  lemma {:induction false} SameFirstWord(t: string, more: string, p: string, rest: string)
    requires IsWord(t) && IsWord(p) && more != "" && more[0] == ' ' && rest != "" && rest[0] == ' '
    requires p + rest <= t + more
    ensures p == t && rest <= more
  {
    hide IsWord;
    SpacesBound(t);
    SpacesBound(p);
    var hay, needle, n, m := t + more, p + rest, |p|, |t|;
    assert needle == hay[..|needle|];
    assert hay[m] == ' ' && needle[n] == ' ';
    assert forall i :: 0 <= i < |needle| ==> hay[i] == needle[i];
    assert forall i :: 0 <= i < n ==> needle[i] == p[i];
    assert forall i :: 0 <= i < m ==> hay[i] == t[i];
    assert n == m;
    assert needle[..n] == p && hay[..n] == t;
    assert needle[n..] == rest && hay[n..] == more;
  }

  /** A match at the very start of the padded text starts with the same tokens. */
  lemma {:induction false} MatchAtStart(ts: seq<Token>, ps: seq<Token>)
    requires AllWords(ts) && AllWords(ps) && Padded(ps) <= Padded(ts)
    ensures SublistAt(ts, ps, 0)
    decreases |ps|
  {
    hide IsWord;
    if ps != [] {
      PaddedIsLong(ps);
      assert ts != [];
      PaddedStarts(ps[1..]);
      PaddedStarts(ts[1..]);
      var hay, needle := ts[0] + Padded(ts[1..]), ps[0] + Padded(ps[1..]);
      assert Padded(ts)[1..] == hay && Padded(ps)[1..] == needle;
      SameFirstWord(ts[0], Padded(ts[1..]), ps[0], Padded(ps[1..]));
      MatchAtStart(ts[1..], ps[1..]);
      assert ts[..|ps|] == [ts[0]] + ts[1..][..|ps|-1];
    }
  }

  lemma {:induction false} SpacesBound(t: Token)
    requires IsWord(t)
    ensures t != "" && forall i :: 0 <= i < |t| ==> t[i] != ' '
  {
    assert Space(' ');
  }

  lemma {:induction false} PaddedStarts(ts: seq<Token>)
    ensures Padded(ts) != "" && Padded(ts)[0] == ' '
  {}

  /** What begins with a blank, and not at the start, begins after the first token. */
  lemma {:induction false} OccursAfterFirst(ts: seq<Token>, needle: string, k: nat)
    requires ts != [] && IsWord(ts[0]) && k > 0 && needle != "" && needle[0] == ' '
    requires OccursAt(Padded(ts), needle, k)
    ensures k > |ts[0]| && OccursAt(Padded(ts[1..]), needle, k - |ts[0]| - 1)
  {
    hide IsWord;
    SpacesBound(ts[0]);
    var head, rest := " " + ts[0], Padded(ts[1..]);
    assert Padded(ts) == head + rest;
    assert forall j :: 1 <= j < |head| ==> head[j] == ts[0][j-1];
    OccursInTail(head, rest, needle, k);
  }

  lemma {:induction false} OccursInTail(head: string, rest: string, needle: string, k: nat)
    requires OccursAt(head + rest, needle, k) && k > 0 && needle != ""
    requires forall j :: 1 <= j < |head| ==> head[j] != needle[0]
    ensures k >= |head| && OccursAt(rest, needle, k - |head|)
  {
    var hay := head + rest;
    assert hay[k..k + |needle|][0] == hay[k];
    assert forall j :: 0 <= j < |head| ==> hay[j] == head[j];
    assert hay[k..k + |needle|] == rest[k - |head|..k - |head| + |needle|];
  }

  /** A match further on starts at a token boundary too. */
  lemma {:induction false} MatchAnywhere(ts: seq<Token>, ps: seq<Token>, k: nat) returns (i: nat)
    requires AllWords(ts) && AllWords(ps) && ps != [] && OccursAt(Padded(ts), Padded(ps), k)
    ensures SublistAt(ts, ps, i)
    decreases |ts|
  {
    hide IsWord, Padded;
    if k == 0 {
      assert Padded(ps) <= Padded(ts);
      MatchAtStart(ts, ps);
      i := 0;
    } else {
      PaddedStarts(ps);
      PaddedIsLong(ps);
      PaddedNothing();
      OccursAfterFirst(ts, Padded(ps), k);
      i := MatchAnywhere(ts[1..], ps, k - |ts[0]| - 1);
      assert ts[i + 1..i + 1 + |ps|] == ts[1..][i..i + |ps|];
      i := i + 1;
    }
  }

  lemma {:induction false} PaddedIsLong(ps: seq<Token>)
    requires AllWords(ps) && ps != []
    ensures |Padded(ps)| >= 3
  {
    SpacesBound(ps[0]);
    PaddedStarts(ps[1..]);
  }

  lemma {:induction false} PaddedNothing()
    ensures Padded([]) == " "
  {}

  lemma {:induction false} SublistOccurs(ts: seq<Token>, ps: seq<Token>, i: nat)
    requires SublistAt(ts, ps, i)
    ensures Includes(Padded(ts), Padded(ps))
  {
    hide Padded, IsWord;
    var before, after := ts[..i], ts[i + |ps|..];
    assert ts == before + (ps + after);
    PaddedAppend(before, ps + after);
    PaddedAppend(ps, after);
    PaddedStarts(after);
    PaddedEnds(ps);
    OccursInside(Padded(before)[..|Padded(before)|-1], Padded(ps), Padded(after));
    assert OccursAt(Padded(ts), Padded(ps), |Padded(before)| - 1);
  }

  /** The blank that closes the needle is the one that opens what follows. */
  lemma {:induction false} OccursInside(before: string, needle: string, after: string)
    requires needle != "" && after != "" && needle[|needle|-1] == after[0]
    ensures OccursAt(before + (needle[..|needle|-1] + after), needle, |before|)
  {
    var hay := before + (needle[..|needle|-1] + after);
    assert hay[|before|..|before| + |needle|] == needle;
  }

  lemma {:induction false} PaddedEnds(ts: seq<Token>)
    ensures Padded(ts) != "" && Padded(ts)[|Padded(ts)|-1] == ' '
  {
    if ts != [] { PaddedEnds(ts[1..]); }
  }

  /** On words, the search on padded strings is the search for a sublist. */
  lemma {:induction false} SearchIsSublist(ts: seq<string>, ps: seq<string>)
    requires AllWords(ts) && AllWords(ps) && ps != []
    ensures Includes(" " + JoinSpaces(ts) + " ", " " + JoinSpaces(ps) + " ") <==> Sublist(ts, ps)
  {
    hide IsWord, JoinSpaces, OccursAt, Padded, SublistAt;
    PaddedIsJoin(ps);
    if ts == [] {
      NothingInBlank(ps);
    } else {
      PaddedIsJoin(ts);
      if Includes(Padded(ts), Padded(ps)) {
        var k :| 0 <= k <= |Padded(ts)| && OccursAt(Padded(ts), Padded(ps), k);
        var i := MatchAnywhere(ts, ps, k);
        SublistFits(ts, ps, i);
      }
      if i :| 0 <= i <= |ts| && SublistAt(ts, ps, i) { SublistOccurs(ts, ps, i); }
    }
  }

  lemma {:induction false} SublistFits(ts: seq<Token>, ps: seq<Token>, i: nat)
    requires SublistAt(ts, ps, i)
    ensures Sublist(ts, ps)
  {}

  /** An empty transcript is two spaces, in which no phrase fits. */
  lemma {:induction false} NothingInBlank(ps: seq<string>)
    requires AllWords(ps) && ps != []
    ensures !Includes(" " + JoinSpaces([]) + " ", Padded(ps)) && !Sublist([], ps)
  {
    PaddedIsLong(ps);
    JoinNothing();
  }

  /**
   * For all texts: a phrase is found exactly when its words stand side by side, in order, among those of the
   * transcript.
   */
  lemma {:induction false} ContainsIffWords(fold: string -> string, transcript: string, phrase: string)
    ensures ContainsNormalizedPhrase(fold, transcript, phrase)
            <==> var ps := Normalize(Split(fold(phrase)));
                 ps != [] && Sublist(WordsOfAll(Normalize(Split(fold(transcript)))), WordsOfAll(ps))
  {
    hide Sublist, Includes, JoinSpaces, Tokens, AllKnown, AllWords, Normalize;
    var ts, ps := Normalize(Split(fold(transcript))), Normalize(Split(fold(phrase)));
    NormalizedIsKnown(Split(fold(transcript)));
    NormalizedIsKnown(Split(fold(phrase)));
    TextIsItsWords(ts);
    TextIsItsWords(ps);
    if ps == [] {
      JoinNothing();
    } else {
      AllAreWords(ts);
      AllAreWords(ps);
      AllNonEmpty(ps);
      JoinIsNotEmpty(WordsOfAll(ps));
      SearchIsSublist(WordsOfAll(ts), WordsOfAll(ps));
    }
  }

  lemma {:induction false} JoinNothing()
    ensures JoinSpaces([]) == ""
  {}

  /** A phrase is found exactly when its tokens stand side by side, in order, among those of the transcript. */
  lemma {:induction false} ContainsIffSublist(fold: string -> string, transcript: string, phrase: string)
    requires INHERITED !in Join(Split(fold(transcript)))
    ensures ContainsNormalizedPhrase(fold, transcript, phrase)
            <==> var ps := Normalize(Split(fold(phrase)));
                 ps != [] && Sublist(Normalize(Split(fold(transcript))), ps)
  {
    hide IsToken, Known, Normalize, ContainsNormalizedPhrase, SublistAt;
    var ts, ps := Normalize(Split(fold(transcript))), Normalize(Split(fold(phrase)));
    ContainsIffWords(fold, transcript, phrase);
    NormalizeKeepsTokens(Split(fold(transcript)));
    TokensAreTheirWords(ts);
    NormalizedIsKnown(Split(fold(phrase)));
    if Tokens(ps) {
      TokensAreTheirWords(ps);
    } else {
      var i :| 0 <= i < |ps| && !IsToken(ps[i]);
      KnownIsItsWords(ps[i]);
      InWordsOfAll(ps, i, "{");
      BraceIsNoToken();
      if Sublist(ts, ps) { SublistMembers(ts, ps, ps[i]); }
      if Sublist(ts, WordsOfAll(ps)) { SublistMembers(ts, WordsOfAll(ps), "{"); }
    }
  }

  lemma {:induction false} InWordsOfAll(parts: seq<string>, i: nat, w: string)
    requires i < |parts| && w in Words(parts[i])
    ensures w in WordsOfAll(parts)
  {
    if i > 0 { InWordsOfAll(parts[1..], i - 1, w); }
  }

  lemma {:induction false} BraceIsNoToken()
    ensures !IsToken("{")
  {
    assert !TokenChar("{"[0]);
  }

  lemma {:induction false} SublistMembers(ts: seq<Token>, ps: seq<Token>, p: Token)
    requires Sublist(ts, ps) && p in ps
    ensures p in ts
  {
    var i :| 0 <= i <= |ts| && SublistAt(ts, ps, i);
    assert p in ts[i..i + |ps|];
  }
}
