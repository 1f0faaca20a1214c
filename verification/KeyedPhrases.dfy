/** Phrase search in transcripts that name the key inherited by the word tables (nb-normalize.ts). */
module KeyedPhrases {
  import opened Wrappers
  import opened FrenchNumbers
  import opened SpelledLetters
  import opened SpokenTimes
  import opened Normalizer
  import opened Texts
  import opened Phrases

  /** The tokens of `ps` stand at the head of `ts`, except that its last one, `function`, stands for the key's text. */
  ghost predicate EndsInKey(ts: seq<Token>, ps: seq<Token>) {
    0 < |ps| <= |ts| && ps[..|ps|-1] == ts[..|ps|-1] && ps[|ps|-1] == "function" && !IsToken(ts[|ps|-1])
  }

  ghost predicate Starts(ts: seq<Token>, ps: seq<Token>) { ps <= ts || EndsInKey(ts, ps) }

  /** The words of a known token. */
  lemma {:induction false} KnownWords(t: Token) returns (digit: string)
    requires Known(t)
    ensures IsToken(t) ==> Words(t) == [t]
    ensures !IsToken(t) ==> t == OBJECT_TEXT + digit && Words(t) == OBJECT_WORDS + ["}" + digit]
  {
    hide IsToken, Space, Words, OBJECT_TEXT;
    digit := "";
    if IsToken(t) {
      KnownIsItsWords(t);
    } else {
      var v: Value :| v.Valid() && v.Inherited? && t == Written(v);
      digit := if v.digit.Some? then Decimal(v.digit.value) else "";
      if v.digit.Some? {
        WrittenIsToken(Number(v.digit.value));
        TokenIsWord(digit);
      }
      ObjectWords(digit);
    }
  }

  /** The first word of a normalised token is a token; the other words of the function's text are not. */
  lemma {:induction false} FirstWordIsToken(t: Token)
    requires Known(t)
    ensures Words(t) != [] && IsToken(Words(t)[0])
    ensures !IsToken(t) ==> Words(t)[0] == "function"
    ensures forall k :: 0 < k < |Words(t)| ==> !IsToken(Words(t)[k])
  {
    hide Words, IsToken, Known;
    var digit := KnownWords(t);
    if !IsToken(t) {
      LaterWords(digit);
      assert forall k :: 0 < k < 5 ==> Words(t)[k] == OBJECT_WORDS[k];
    }
  }

  lemma {:induction false} LaterWords(digit: string)
    ensures IsToken("function") && !IsToken("}" + digit)
    ensures forall k :: 0 < k < 5 ==> !IsToken(OBJECT_WORDS[k])
  {
    assert !TokenChar(("}" + digit)[0]);
    assert !TokenChar("Object()"[0]) && !TokenChar("{"[0]) && !TokenChar("[native"[0]) && !TokenChar("code]"[4]);
  }

  lemma {:induction false} NotFollowed(ts: seq<Token>, w: string)
    requires AllKnown(ts) && WordsOfAll(ts) != [] && WordsOfAll(ts)[0] == w
    ensures IsToken(w)
  {
    hide Known, IsToken, Words;
    FirstWordIsToken(ts[0]);
    assert WordsOfAll(ts)[0] == Words(ts[0])[0];
  }

  lemma {:induction false} Uncons(ts: seq<Token>)
    requires ts != []
    ensures WordsOfAll(ts) == Words(ts[0]) + WordsOfAll(ts[1..])
  {
    hide Words;
  }

  lemma {:induction false} NoTokensStart(ts: seq<Token>)
    ensures WordsOfAll([]) == [] && Starts(ts, []) && forall ps :: ps != [] ==> !Starts([], ps)
  {}

  lemma {:induction false} StartsCons(ts: seq<Token>, ps: seq<Token>)
    requires ts != [] && ps != []
    ensures Starts(ts, ps) <==> (ps[0] == ts[0] && Starts(ts[1..], ps[1..]))
                                || (|ps| == 1 && ps[0] == "function" && !IsToken(ts[0]))
  {
    hide IsToken, EndsInKey;
    assert ps == [ps[0]] + ps[1..] && ts == [ts[0]] + ts[1..];
    PrefixCons(ps[0], ps[1..], ts[0], ts[1..]);
    EndsInKeyCons(ts, ps);
    if |ps| == 1 { NothingEndsInKey(ts[1..]); }
  }

  lemma {:induction false} EndsInKeyCons(ts: seq<Token>, ps: seq<Token>)
    requires ts != [] && ps != []
    ensures EndsInKey(ts, ps) <==> if |ps| == 1 then ps[0] == "function" && !IsToken(ts[0])
                                   else ps[0] == ts[0] && EndsInKey(ts[1..], ps[1..])
  {
    hide IsToken;
    if 1 < |ps| <= |ts| {
      var n := |ps| - 1;
      assert ps[..n] == [ps[0]] + ps[1..][..n-1] && ts[..n] == [ts[0]] + ts[1..][..n-1];
      PrefixCons(ps[0], ps[1..][..n-1], ts[0], ts[1..][..n-1]);
      assert ps[1..][n-1] == ps[n] && ts[1..][n-1] == ts[n];
    }
  }

  lemma {:induction false} PrefixCons(a: string, more: seq<string>, b: string, rest: seq<string>)
    ensures [a] + more <= [b] + rest <==> a == b && more <= rest
  {
    assert ([a] + more)[0] == a && ([b] + rest)[0] == b;
    assert ([a] + more)[1..] == more && ([b] + rest)[1..] == rest;
  }

  lemma {:induction false} PrefixObject(d: string, more: seq<string>, e: string, rest: seq<string>)
    ensures OBJECT_WORDS + ["}" + d] + more <= OBJECT_WORDS + ["}" + e] + rest <==> d == e && more <= rest
    ensures OBJECT_TEXT + d == OBJECT_TEXT + e <==> d == e
  {
    hide OBJECT_TEXT;
    var x, y := OBJECT_WORDS + ["}" + d] + more, OBJECT_WORDS + ["}" + e] + rest;
    assert x[5] == "}" + d && y[5] == "}" + e && x[6..] == more && y[6..] == rest && x[..5] == y[..5];
    assert ("}" + d)[1..] == d && ("}" + e)[1..] == e;
    assert (OBJECT_TEXT + d)[|OBJECT_TEXT|..] == d && (OBJECT_TEXT + e)[|OBJECT_TEXT|..] == e;
  }

  /** What follows the first word of the function's text is not how a token begins. */
  lemma {:induction false} PrefixMixed(a: string, more: seq<string>, d: string, rest: seq<string>)
    requires more != [] ==> IsToken(more[0])
    ensures [a] + more <= OBJECT_WORDS + ["}" + d] + rest <==> a == "function" && more == []
    ensures !(OBJECT_WORDS + ["}" + d] + rest <= [a] + more)
  {
    LaterWords(d);
    var y := OBJECT_WORDS + ["}" + d] + rest;
    assert y[0] == "function" && y[1] == OBJECT_WORDS[1] && |y| > 1;
    assert more != [] ==> ([a] + more)[1] == more[0];
  }

  /** Prefixes of words are prefixes of tokens, up to a last `function`. */
  lemma {:induction false} StartsIff(ts: seq<Token>, ps: seq<Token>)
    requires AllKnown(ts) && AllKnown(ps)
    ensures WordsOfAll(ps) <= WordsOfAll(ts) <==> Starts(ts, ps)
    decreases |ps|
  {
    hide Known, IsToken, Words, WordsOfAll, OBJECT_WORDS, OBJECT_TEXT, Starts;
    NoTokensStart(ts);
    if ps != [] {
      Uncons(ps);
      FirstWordIsToken(ps[0]);
      if ts != [] {
        Uncons(ts);
        StartsCons(ts, ps);
        StartsIff(ts[1..], ps[1..]);
        FirstsCompared(ts, ps);
      }
    }
  }

  lemma {:induction false} FirstsCompared(ts: seq<Token>, ps: seq<Token>)
    requires ts != [] && ps != [] && AllKnown(ts) && AllKnown(ps)
    ensures Words(ps[0]) + WordsOfAll(ps[1..]) <= Words(ts[0]) + WordsOfAll(ts[1..])
            <==> (ps[0] == ts[0] && WordsOfAll(ps[1..]) <= WordsOfAll(ts[1..]))
                 || (|ps| == 1 && ps[0] == "function" && !IsToken(ts[0]))
  {
    hide Known, IsToken, Words, WordsOfAll, OBJECT_WORDS, OBJECT_TEXT;
    var more, rest := WordsOfAll(ps[1..]), WordsOfAll(ts[1..]);
    var d, e := WordsOfBoth(ps[0], ts[0]);
    LaterWords("");
    if more != [] { NotFollowed(ps[1..], more[0]); }
    if rest != [] { NotFollowed(ts[1..], rest[0]); }
    NothingMore(ps);
    if IsToken(ps[0]) {
      PrefixCons(ps[0], more, ts[0], rest);
      PrefixMixed(ps[0], more, e, rest);
    } else {
      PrefixMixed(ts[0], rest, d, more);
      PrefixObject(d, more, e, rest);
    }
  }

  lemma {:induction false} WordsOfBoth(p: Token, t: Token) returns (d: string, e: string)
    requires Known(p) && Known(t)
    ensures IsToken(p) ==> Words(p) == [p]
    ensures IsToken(t) ==> Words(t) == [t]
    ensures !IsToken(p) ==> p == OBJECT_TEXT + d && Words(p) == OBJECT_WORDS + ["}" + d]
    ensures !IsToken(t) ==> t == OBJECT_TEXT + e && Words(t) == OBJECT_WORDS + ["}" + e]
  {
    d := KnownWords(p);
    e := KnownWords(t);
  }

  lemma {:induction false} NothingMore(ps: seq<Token>)
    requires ps != [] && AllKnown(ps)
    ensures WordsOfAll(ps[1..]) == [] <==> |ps| == 1
  {
    hide Known, Words;
    TextIsItsWords(ps[1..]);
  }

  /** Words found among words are found from the head of some token on. */
  lemma {:induction false} FoundFromToken(ts: seq<Token>, ps: seq<Token>)
    requires AllKnown(ts) && AllKnown(ps) && ps != []
    ensures Sublist(WordsOfAll(ts), WordsOfAll(ps)) <==> exists j :: 0 <= j <= |ts| && Starts(ts[j..], ps)
  {
    hide Known, IsToken, Words, WordsOfAll, Starts, SublistAt;
    var ws := WordsOfAll(ps);
    if i :| 0 <= i <= |WordsOfAll(ts)| && SublistAt(WordsOfAll(ts), ws, i) {
      var j := TokenOf(ts, ps, i);
      StartsIff(ts[j..], ps);
    }
    if j :| 0 <= j <= |ts| && Starts(ts[j..], ps) {
      StartsIff(ts[j..], ps);
      WordsAppend(ts[..j], ts[j..]);
      assert ts == ts[..j] + ts[j..];
      PrefixIsSublist(WordsOfAll(ts[..j]), WordsOfAll(ts[j..]), ws);
    }
  }

  lemma {:induction false} PrefixIsSublist(before: seq<string>, after: seq<string>, ws: seq<string>)
    requires ws <= after
    ensures Sublist(before + after, ws)
  {
    assert SublistAt(before + after, ws, |before|);
  }

  lemma {:induction false} WordsAppend(a: seq<string>, b: seq<string>)
    ensures WordsOfAll(a + b) == WordsOfAll(a) + WordsOfAll(b)
  {
    hide Words;
    if a == [] {
      assert a + b == b;
    } else {
      assert (a + b)[1..] == a[1..] + b;
      WordsAppend(a[1..], b);
    }
  }

  lemma {:induction false} TokenOf(ts: seq<Token>, ps: seq<Token>, i: nat) returns (j: nat)
    requires AllKnown(ts) && AllKnown(ps) && ps != [] && SublistAt(WordsOfAll(ts), WordsOfAll(ps), i)
    ensures j <= |ts| && WordsOfAll(ps) <= WordsOfAll(ts[j..])
    decreases |ts|
  {
    hide Known, IsToken, Words, WordsOfAll;
    var all, ws := WordsOfAll(ts), WordsOfAll(ps);
    Uncons(ps);
    FirstWordIsToken(ps[0]);
    assert ws[0] == Words(ps[0])[0] && all[i..i + |ws|][0] == all[i];
    if i == 0 {
      assert ts[0..] == ts && all[..|ws|] == ws;
      j := 0;
    } else {
      NoTokensStart(ts);
      Uncons(ts);
      FirstWordIsToken(ts[0]);
      var n, rest := |Words(ts[0])|, WordsOfAll(ts[1..]);
      assert forall k :: 0 <= k < n ==> all[k] == Words(ts[0])[k];
      assert i >= n;
      assert all[i..i + |ws|] == rest[i - n..i - n + |ws|];
      j := TokenOf(ts[1..], ps, i - n);
      assert ts[1..][j..] == ts[j + 1..];
      j := j + 1;
    }
  }

  /**
   * For all texts: a phrase is found exactly when its tokens stand side by side, a last `function` perhaps for
   * the key.
   */
  lemma {:induction false} ContainsIffStarts(fold: string -> string, transcript: string, phrase: string)
    ensures ContainsNormalizedPhrase(fold, transcript, phrase)
            <==> var ts, ps := Normalize(Split(fold(transcript))), Normalize(Split(fold(phrase)));
                 ps != [] && exists j :: 0 <= j <= |ts| && Starts(ts[j..], ps)
  {
    hide Sublist, Tokens, AllKnown, Normalize, ContainsNormalizedPhrase, WordsOfAll, Starts;
    NormalizedIsKnown(Split(fold(transcript)));
    NormalizedIsKnown(Split(fold(phrase)));
    ContainsIffWords(fold, transcript, phrase);
    if Normalize(Split(fold(phrase))) != [] {
      FoundFromToken(Normalize(Split(fold(transcript))), Normalize(Split(fold(phrase))));
    }
  }

  /**
   * The search is right about a phrase exactly when the phrase is there, or does not end where the key's text
   * begins.
   */
  lemma {:induction false} SearchIsRightIff(fold: string -> string, transcript: string, phrase: string)
    ensures var ts, ps := Normalize(Split(fold(transcript))), Normalize(Split(fold(phrase)));
            (ContainsNormalizedPhrase(fold, transcript, phrase) <==> ps != [] && Sublist(ts, ps))
            <==> Sublist(ts, ps) || !exists j :: 0 <= j <= |ts| && EndsInKey(ts[j..], ps)
  {
    hide Normalize, ContainsNormalizedPhrase, EndsInKey, SublistAt;
    var ts, ps := Normalize(Split(fold(transcript))), Normalize(Split(fold(phrase)));
    ContainsIffStarts(fold, transcript, phrase);
    SublistIsPrefix(ts, ps);
    if ps == [] { forall j | 0 <= j <= |ts| ensures !EndsInKey(ts[j..], ps) { NothingEndsInKey(ts[j..]); } }
  }

  lemma {:induction false} SublistIsPrefix(ts: seq<Token>, ps: seq<Token>)
    ensures Sublist(ts, ps) <==> exists j :: 0 <= j <= |ts| && ps <= ts[j..]
  {
    if i :| 0 <= i <= |ts| && SublistAt(ts, ps, i) { assert ps <= ts[i..]; }
    if j :| 0 <= j <= |ts| && ps <= ts[j..] {
      assert ts[j..][..|ps|] == ts[j..j + |ps|];
      assert SublistAt(ts, ps, j);
    }
  }

  lemma {:induction false} NothingEndsInKey(ts: seq<Token>)
    ensures !EndsInKey(ts, [])
  {}

  /** The key that the tables inherit breaks this: `function` is found in `constructor`. */
  lemma {:induction false} FoundInsideConstructor(fold: string -> string)
    requires fold("constructor") == "constructor" && fold("function") == "function"
    ensures ContainsNormalizedPhrase(fold, "constructor", "function")
    ensures !Sublist(Normalize(Split("constructor")), Normalize(Split("function")))
  {
    hide Words, ContainsNormalizedPhrase, Normalize, Split, OBJECT_TEXT, WordsOfAll;
    NormalizedConstructor();
    ContainsIffWords(fold, "constructor", "function");
    ObjectWords("");
    assert OBJECT_TEXT + "" == OBJECT_TEXT;
    ObjectWordsAreWords("");
    OneWordText(OBJECT_TEXT);
    OneWordText("function");
    assert SublistAt(OBJECT_WORDS + ["}" + ""], ["function"], 0);
    if Sublist([OBJECT_TEXT], ["function"]) {
      SublistMembers([OBJECT_TEXT], ["function"], "function");
      ObjectTextIsLonger();
    }
  }

  lemma {:induction false} ObjectTextIsLonger()
    ensures "function" != OBJECT_TEXT
  {
    assert |OBJECT_TEXT| > 8;
  }

  lemma {:induction false} OneWordText(t: string)
    ensures WordsOfAll([t]) == Words(t)
  {
    assert [t][1..] == [] && Words(t) + [] == Words(t);
  }

  lemma {:induction false} NormalizedConstructor()
    ensures Normalize(Split("constructor")) == [OBJECT_TEXT] && Normalize(Split("function")) == ["function"]
  {
    hide Numbers, Times, Split, OBJECT_TEXT, Join, NoSpelling, NoTime, ParseNumber, IsToken, NumberWord;
    KeyIsRead();
    SplitOne("constructor");
    SplitOne("function");
    NoRunInOne("constructor");
    NoRunInOne("function");
    JoinFixpoint(["constructor"]);
    JoinFixpoint(["function"]);
    OneNumber([INHERITED], Inherited(None));
    NumbersFixpoint(["function"]);
    PlainTextsAreNoTimes();
    TimesFixpoint([OBJECT_TEXT]);
    TimesFixpoint(["function"]);
  }

  lemma {:induction false} KeyIsRead()
    ensures ParseNumber([INHERITED]) == Some(Inherited(None)) && Written(Inherited(None)) == OBJECT_TEXT
    ensures !NumberWord("function") && IsToken(INHERITED) && IsToken("function")
  {
    hide ParseNumber;
    ParseOne(INHERITED);
    WordTables();
  }

  lemma {:induction false} NoRunInOne(t: Token)
    ensures NoSpelling([t])
  {}

  lemma {:induction false} PlainTextsAreNoTimes()
    ensures NoTime([OBJECT_TEXT]) && NoTime(["function"])
  {
    assert OBJECT_TEXT[0] == 'f' && !IsDigit('f');
    assert OBJECT_TEXT[..1][0] == 'f' && OBJECT_TEXT[..2][0] == 'f';
    assert "function"[..1][0] == 'f' && "function"[..2][0] == 'f';
    assert OBJECT_TEXT[4] == 't' && OBJECT_TEXT != "midi";
  }
}
