/**
 * Canonical texts (nb-normalize.ts): normalising a text twice.
 *
 * It changes nothing the second time, unless the text names the key that the word tables
 * inherit. The text of the inherited function is then read again as tokens of its own.
 */
module CanonicalTexts {
  import opened Wrappers
  import opened FrenchNumbers
  import opened SpelledLetters
  import opened SpokenTimes
  import opened Normalizer
  import opened Phrases
  import opened Texts

  /** A normalised text gives itself, whatever `fold` does beyond texts of token characters and blanks. */
  lemma {:induction false} NormalizeTextIdempotent(fold: string -> string, text: string)
    requires forall s :: Phrases.Plain(s) ==> fold(s) == s
    requires INHERITED !in Join(Split(fold(text)))
    ensures NormalizeText(fold, NormalizeText(fold, text)) == NormalizeText(fold, text)
  {
    hide Normalize, Tokens, Split, JoinSpaces, Phrases.Plain;
    var ts := Split(fold(text));
    NormalizeKeepsTokens(ts);
    JoinIsPlain(Normalize(ts));
    SplitJoin(Normalize(ts));
    NormalizeIdempotent(ts);
  }

  // ----- the other texts

  function LowerChar(c: char): char { if 'A' <= c <= 'Z' then (c as int + 32) as char else c }

  function Lower(s: string): string { seq(|s|, i requires 0 <= i < |s| => LowerChar(s[i])) }

  /** The characters of ASCII that are diacritics: accent removal drops them. */
  predicate Diacritic(c: char) { c == '^' || c == '`' }

  predicate Ascii(s: string) { forall i :: 0 <= i < |s| ==> s[i] < '\U{80}' && !Diacritic(s[i]) }

  /** Lower-casing and accent removal, as far as the proof looks into them. */
  ghost predicate Folds(fold: string -> string) { forall s :: Ascii(s) ==> fold(s) == Lower(s) }

  function Undecorated(s: string): string {
    if s == "" then "" else (if Diacritic(s[0]) then "" else [s[0]]) + Undecorated(s[1..])
  }

  /** What the source does to every ASCII text: lower-casing, then dropping the diacritics. */
  function FoldAscii(s: string): string { Undecorated(Lower(s)) }

  /** Any function that does this to the ASCII texts, as the source does, is a `Folds`. */
  lemma {:induction false} SourceFolds(fold: string -> string)
    requires forall s :: (forall i :: 0 <= i < |s| ==> s[i] < '\U{80}') ==> fold(s) == FoldAscii(s)
    ensures Folds(fold)
  {
    hide Lower;
    forall s | Ascii(s) ensures fold(s) == Lower(s) {
      LowerHasNoDiacritic(s);
      NothingToDrop(Lower(s));
    }
  }

  lemma {:induction false} LowerHasNoDiacritic(s: string)
    requires Ascii(s)
    ensures forall i :: 0 <= i < |Lower(s)| ==> !Diacritic(Lower(s)[i])
  {}

  lemma {:induction false} NothingToDrop(s: string)
    requires forall i :: 0 <= i < |s| ==> !Diacritic(s[i])
    ensures Undecorated(s) == s
  {
    hide Diacritic;
    if s != "" { NothingToDrop(s[1..]); }
  }

  lemma {:induction false} PlainIsLower(s: string)
    requires Phrases.Plain(s)
    ensures Ascii(s) && Lower(s) == s
  {
    assert forall i :: 0 <= i < |s| ==> LowerChar(s[i]) == s[i];
  }

  lemma {:induction false} LowerAppend(a: string, b: string)
    ensures Lower(a + b) == Lower(a) + Lower(b)
  {}

  lemma {:induction false} SplitDrop(separators: string, rest: string)
    requires forall i :: 0 <= i < |separators| ==> !TokenChar(separators[i])
    ensures Split(separators + rest) == Split(rest)
  {
    hide TokenChar;
    if separators == "" {
      assert separators + rest == rest;
    } else {
      assert (separators + rest)[1..] == separators[1..] + rest;
      SplitDrop(separators[1..], rest);
    }
  }

  lemma {:induction false} SplitAfter(t: Token, separators: string, rest: string)
    requires IsToken(t) && separators != "" && forall i :: 0 <= i < |separators| ==> !TokenChar(separators[i])
    ensures Split(t + separators + rest) == [t] + Split(rest)
  {
    hide TokenChar, IsToken, Split;
    SplitToken(t, separators + rest);
    SplitDrop(separators, rest);
    assert t + separators + rest == t + (separators + rest);
  }

  /** The tokens of a normalised token, read again. */
  function Pieces(t: Token): seq<Token> { Split(Lower(t)) }

  function AllPieces(ts: seq<Token>): seq<Token> { if ts == [] then [] else Pieces(ts[0]) + AllPieces(ts[1..]) }

  const OBJECT_PIECES: seq<Token> := ["function", "object", "native", "code"]

  lemma {:induction false} LowerObjectText(digit: string)
    ensures Lower(OBJECT_TEXT + digit)
            == "function" + " " + ("object" + "() { [" + ("native" + " " + ("code" + "] }" + Lower(digit))))
  {
    hide Lower;
    var tail := "bject() { [native code] }";
    LowerAppend("function ", "O" + (tail + digit));
    LowerAppend("O", tail + digit);
    LowerAppend(tail, digit);
    assert OBJECT_TEXT + digit == "function " + ("O" + (tail + digit));
    LowerStays();
    JoinedObjectText(Lower(digit));
  }

  lemma {:induction false} LowerStays()
    ensures Lower("function ") == "function " && Lower("O") == "o"
    ensures Lower("bject() { [native code] }") == "bject() { [native code] }"
  {}

  lemma {:induction false} JoinedObjectText(low: string)
    ensures "function " + ("o" + ("bject() { [native code] }" + low))
            == "function" + " " + ("object" + "() { [" + ("native" + " " + ("code" + "] }" + low)))
  {}

  lemma {:induction false} ObjectLiterals()
    ensures IsToken("function") && IsToken("object") && IsToken("native") && IsToken("code")
    ensures forall i :: 0 <= i < 1 ==> !TokenChar(" "[i])
    ensures forall i :: 0 <= i < 6 ==> !TokenChar("() { ["[i])
    ensures forall i :: 0 <= i < 3 ==> !TokenChar("] }"[i])
  {}

  lemma {:induction false} PiecesOfToken(t: Token)
    requires IsToken(t)
    ensures Pieces(t) == [t]
  {
    hide TokenChar, Split, IsToken;
    TokenIsPlain(t);
    PlainIsLower(t);
    SplitOne(t);
  }

  lemma {:induction false} TokenIsPlain(t: Token)
    requires IsToken(t)
    ensures Phrases.Plain(t)
  {}

  /** What a normalised token that is no token falls into. */
  lemma {:induction false} PiecesOfObject(t: Token)
    requires Known(t) && !IsToken(t)
    ensures Pieces(t) == OBJECT_PIECES || exists d :: d <= 9 && Pieces(t) == OBJECT_PIECES + [Decimal(d)]
  {
    hide IsToken, TokenChar, Split, Lower, OBJECT_TEXT, Decimal;
    var v: Value :| v.Valid() && v.Inherited? && t == Written(v);
    var digit := if v.digit.Some? then Decimal(v.digit.value) else "";
    LowerObjectText(digit);
    ObjectLiterals();
    var low := Lower(digit);
    SplitAfter("function", " ", "object" + "() { [" + ("native" + " " + ("code" + "] }" + low)));
    SplitAfter("object", "() { [", "native" + " " + ("code" + "] }" + low));
    SplitAfter("native", " ", "code" + "] }" + low);
    SplitAfter("code", "] }", low);
    assert Pieces(t) == OBJECT_PIECES + Split(low);
    if v.digit.Some? {
      WrittenIsToken(Number(v.digit.value));
      PiecesOfToken(digit);
      assert Pieces(t) == OBJECT_PIECES + [Decimal(v.digit.value)];
    } else {
      assert low == "" by { LowerNothing(); }
      SplitNothing();
      assert OBJECT_PIECES + [] == OBJECT_PIECES;
    }
  }

  lemma {:induction false} LowerNothing()
    ensures Lower("") == ""
  {}

  lemma {:induction false} KnownIsAscii(ts: seq<Token>)
    requires AllKnown(ts)
    ensures Ascii(JoinSpaces(ts))
  {
    hide Known;
    if ts != [] {
      OneIsAscii(ts[0]);
      if |ts| > 1 { KnownIsAscii(ts[1..]); }
    }
  }

  lemma {:induction false} OneIsAscii(t: Token)
    requires Known(t)
    ensures Ascii(t)
  {
    if !IsToken(t) {
      var v: Value :| v.Valid() && v.Inherited? && t == Written(v);
      var digit := if v.digit.Some? then Decimal(v.digit.value) else "";
      assert t == OBJECT_TEXT + digit;
      ObjectIsAscii();
    }
  }

  lemma {:induction false} ObjectIsAscii()
    ensures Ascii(OBJECT_TEXT)
  {}

  /** Reading a canonical text again reads each of its tokens again. */
  lemma {:induction false} SplitOfJoin(ts: seq<Token>)
    ensures Split(Lower(JoinSpaces(ts))) == AllPieces(ts)
  {
    hide Split, Lower, TokenChar;
    if ts == [] {
      LowerNothing();
      SplitNothing();
    } else if |ts| == 1 {
      assert AllPieces(ts[1..]) == [] && Pieces(ts[0]) + [] == Pieces(ts[0]);
    } else {
      SplitOfJoin(ts[1..]);
      var rest := JoinSpaces(ts[1..]);
      LowerAppend(ts[0], " " + rest);
      LowerAppend(" ", rest);
      assert ts[0] + " " + rest == ts[0] + (" " + rest);
      LowerBlank();
      SplitAtBlank(Lower(ts[0]), Lower(rest));
      assert Lower(ts[0]) + (" " + Lower(rest)) == Lower(ts[0]) + " " + Lower(rest);
    }
  }

  lemma {:induction false} LowerBlank()
    ensures Lower(" ") == " " && !TokenChar(' ')
  {}

  lemma {:induction false} SplitUnfold(s: string)
    requires s != ""
    ensures Split(s) == if TokenChar(s[0]) then [s[..Span(s)]] + Split(s[Span(s)..]) else Split(s[1..])
  {
    hide TokenChar, Span;
  }

  lemma {:induction false} SplitAtBlank(a: string, b: string)
    ensures Split(a + " " + b) == Split(a) + Split(b)
    decreases |a|
  {
    hide TokenChar, IsToken, Split, Span;
    LowerBlank();
    var s := a + " " + b;
    SplitUnfold(s);
    if a == "" {
      assert s[0] == ' ' && s[1..] == b;
      SplitNothing();
    } else {
      SplitUnfold(a);
      assert s[0] == a[0];
      var n := if TokenChar(a[0]) then Span(a) else 1;
      if TokenChar(a[0]) {
        SpanStays(a, b);
        assert s[..n] == a[..n];
      }
      assert s[n..] == a[n..] + " " + b;
      SplitAtBlank(a[n..], b);
    }
  }

  lemma {:induction false} SpanStays(a: string, b: string)
    ensures Span(a + " " + b) == Span(a) && (a != "" && TokenChar(a[0]) ==> Span(a) > 0)
  {
    hide TokenChar, Span;
    LowerBlank();
    var s := a + " " + b;
    assert s[|a|] == ' ' && forall i :: 0 <= i < |a| ==> s[i] == a[i];
    SpanIs(s, Span(a));
  }

  // ----- the pieces are canonical up to their times

  lemma {:induction false} PiecesHaveNoLetter(t: Token, i: nat)
    requires Known(t) && !IsToken(t) && i < |Pieces(t)|
    ensures !Letter(Pieces(t)[i]) && Pieces(t)[i] != INHERITED
  {
    hide Pieces;
    PiecesOfObject(t);
    if Pieces(t) != OBJECT_PIECES {
      var d :| d <= 9 && Pieces(t) == OBJECT_PIECES + [Decimal(d)];
      WrittenIsNoLetter(Number(d));
      assert |Decimal(d)| == 1;
    }
  }

  /** If the pieces begin with single letters, the tokens begin with the same ones. */
  lemma {:induction false} PiecesKeepLetterPrefix(ts: seq<Token>, k: nat)
    requires AllKnown(ts) && k <= |AllPieces(ts)| && Letters(AllPieces(ts)[..k])
    ensures k <= |ts| && AllPieces(ts)[..k] == ts[..k]
  {
    hide Letter, IsToken, Known, Pieces;
    if k > 0 {
      var r := AllPieces(ts);
      assert Letter(r[..k][0]);
      if IsToken(ts[0]) {
        PiecesOfToken(ts[0]);
        assert r[1..] == AllPieces(ts[1..]) && r[..k][1..] == AllPieces(ts[1..])[..k-1];
        assert Letters(r[..k][1..]);
        PiecesKeepLetterPrefix(ts[1..], k - 1);
        assert ts[..k] == [ts[0]] + ts[1..][..k-1];
      } else {
        PiecesOfObject(ts[0]);
        PiecesHaveNoLetter(ts[0], 0);
        assert false;
      }
    }
  }

  lemma {:induction false} NoSpellingBefore(ps: seq<Token>, rest: seq<Token>)
    requires NoSpelling(rest) && forall i :: 0 <= i < |ps| ==> !Letter(ps[i])
    ensures NoSpelling(ps + rest)
  {
    hide Letter;
    var all := ps + rest;
    forall i | 0 <= i < |all| - 2 ensures !(Letter(all[i]) && Letter(all[i+1]) && Letter(all[i+2])) {
      if i >= |ps| {
        var j := i - |ps|;
        assert all[i] == rest[j] && all[i+1] == rest[j+1] && all[i+2] == rest[j+2];
      }
    }
  }

  lemma {:induction false} PiecesKeepNoSpelling(ts: seq<Token>)
    requires AllKnown(ts) && NoSpelling(ts)
    ensures NoSpelling(AllPieces(ts))
  {
    hide Letter, IsToken, Known, Pieces, NoSpelling;
    if ts == [] {
      assert AllPieces(ts) == ts;
    } else {
      NoSpellingSuffix(ts, 1);
      PiecesKeepNoSpelling(ts[1..]);
      if IsToken(ts[0]) {
        PiecesOfToken(ts[0]);
        var r := AllPieces(ts);
        assert r[1..] == AllPieces(ts[1..]);
        if |r| >= 3 && Letter(r[0]) && Letter(r[1]) && Letter(r[2]) {
          assert Letters(r[..3]);
          PiecesKeepLetterPrefix(ts, 3);
        }
        NoSpellingCons(r, ts);
      } else {
        forall i: nat | i < |Pieces(ts[0])| ensures !Letter(Pieces(ts[0])[i]) { PiecesHaveNoLetter(ts[0], i); }
        NoSpellingBefore(Pieces(ts[0]), AllPieces(ts[1..]));
      }
    }
  }

  lemma {:induction false} PiecesNameNoKey(ts: seq<Token>)
    requires AllKnown(ts) && INHERITED !in ts
    ensures INHERITED !in AllPieces(ts)
  {
    hide IsToken, Known, Pieces, INHERITED;
    if ts != [] {
      PiecesNameNoKey(ts[1..]);
      if IsToken(ts[0]) {
        PiecesOfToken(ts[0]);
      } else {
        forall i: nat | i < |Pieces(ts[0])| ensures Pieces(ts[0])[i] != INHERITED { PiecesHaveNoLetter(ts[0], i); }
      }
    }
  }

  /** Main result: a text normalises stably exactly when its joined tokens do not name the inherited key. */
  lemma {:induction false} NormalizeTextIdempotentIff(fold: string -> string, text: string)
    requires Folds(fold)
    ensures NormalizeText(fold, NormalizeText(fold, text)) == NormalizeText(fold, text)
            <==> INHERITED !in Join(Split(fold(text)))
  {
    hide Normalize, Split, Tokens, JoinSpaces, Ascii, Lower, AllPieces, Phrases.Plain;
    if INHERITED in Join(Split(fold(text))) {
      ReadAgain(fold, text);
      ReadAgainDiffers(Normalize(Split(fold(text))), Split(fold(NormalizeText(fold, text))));
    } else {
      forall s | Phrases.Plain(s) ensures fold(s) == s { PlainIsLower(s); }
      NormalizeTextIdempotent(fold, text);
    }
  }

  /** The second reading of a text does not name the key. */
  lemma {:induction false} ReadAgain(fold: string -> string, text: string)
    requires Folds(fold)
    ensures INHERITED !in Join(Split(fold(NormalizeText(fold, text))))
    ensures AllKnown(Normalize(Split(fold(text))))
    ensures !Tokens(Normalize(Split(fold(text)))) <==> INHERITED in Join(Split(fold(text)))
  {
    hide Normalize, Split, Tokens, JoinSpaces, Ascii, Lower, AllPieces, Known, NoSpelling, NumberWord, NoTime;
    var ts := Split(fold(text));
    var ns := Normalize(ts);
    NormalizeKeepsTokens(ts);
    NormalizedIsKnown(ts);
    NormalizeIsCanonical(ts);
    KnownIsAscii(ns);
    SplitOfJoin(ns);
    PiecesKeepNoSpelling(ns);
    JoinFixpoint(AllPieces(ns));
    assert NumberWord(INHERITED) by { KeyIsNumberWord(); }
    PiecesNameNoKey(ns);
  }

  lemma {:induction false} KeyIsNumberWord()
    ensures NumberWord(INHERITED)
  {}

  /** A text that holds the function's text is not one of tokens. */
  lemma {:induction false} ReadAgainDiffers(ns: seq<Token>, ps: seq<Token>)
    requires AllKnown(ns) && !Tokens(ns) && Tokens(ps) && INHERITED !in Join(ps)
    ensures JoinSpaces(Normalize(ps)) != JoinSpaces(ns)
  {
    hide IsToken, Known, Normalize, Words, JoinSpaces, WordsOfAll;
    NormalizeKeepsTokens(ps);
    var i :| 0 <= i < |ns| && !IsToken(ns[i]);
    KnownIsItsWords(ns[i]);
    InWordsOfAll(ns, i, "{");
    WordsOfJoin(ns);
    WordsOfJoin(Normalize(ps));
    TokensAreTheirWords(Normalize(ps));
    BraceIsNoToken();
    assert "{" !in Normalize(ps);
  }
}
