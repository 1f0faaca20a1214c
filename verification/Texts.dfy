/**
 * Texts as lists of words.
 *
 * White space is what `trim` and `\s` see; a run of it becomes one blank, and what is
 * left of a text is its words. The sessions build their transcripts that way.
 */
module Texts {
  import opened Wrappers

  predicate Space(c: char) {
    || c == ' ' || c == '\t' || c == '\n' || c == '\U{0B}' || c == '\U{0C}' || c == '\r'
    || c == '\U{A0}' || c == '\U{1680}' || '\U{2000}' <= c <= '\U{200A}' || c == '\U{2028}' || c == '\U{2029}'
    || c == '\U{202F}' || c == '\U{205F}' || c == '\U{3000}' || c == '\U{FEFF}'
  }

  /** The white space of ECMAScript: control characters, blanks of any width, and ends of lines. */
  lemma {:induction false} SpacesAre(c: char)
    ensures Space(c) <==> c as int in {9, 10, 11, 12, 13, 32, 160, 5760, 8192, 8193, 8194, 8195, 8196, 8197, 8198, 8199,
                                       8200, 8201, 8202, 8232, 8233, 8239, 8287, 12288, 65279}
  {}

  function JoinSpaces(ts: seq<string>): string {
    if ts == [] then "" else if |ts| == 1 then ts[0] else ts[0] + " " + JoinSpaces(ts[1..])
  }

  function Concat(ts: seq<string>): string {
    if ts == [] then "" else ts[0] + Concat(ts[1..])
  }

  lemma {:induction false} ConcatSplit(ts: seq<string>, n: nat)
    requires n <= |ts|
    ensures Concat(ts) == Concat(ts[..n]) + Concat(ts[n..])
  {
    if n == 0 {
      assert ts[0..] == ts;
    } else {
      ConcatSplit(ts[1..], n - 1);
      assert ts[..n][1..] == ts[1..][..n-1] && ts[1..][n-1..] == ts[n..];
    }
  }

  lemma {:induction false} ConcatLast(ts: seq<string>)
    requires ts != []
    ensures Concat(ts) == Concat(ts[..|ts|-1]) + ts[|ts|-1]
  {
    var n := |ts| - 1;
    ConcatSplit(ts, n);
    assert ts[n..] == [ts[n]] && ts[n..][1..] == [];
  }

  /** A number in decimal. */
  function Figures(n: nat): string {
    (if n < 10 then "" else Figures(n / 10)) + [LastFigure(n)]
  }

  function LastFigure(n: nat): char { ['0', '1', '2', '3', '4', '5', '6', '7', '8', '9'][n % 10] }

  predicate AllFigures(s: string) { forall i :: 0 <= i < |s| ==> '0' <= s[i] <= '9' }

  /** The number that figures stand for. */
  function ReadFigures(s: string): nat
    requires AllFigures(s)
  { if s == "" then 0 else 10 * ReadFigures(s[..|s|-1]) + (s[|s|-1] - '0') as nat }

  /** Figures read as the number they were written for, and do not begin with a needless 0. */
  lemma {:induction false} FiguresRoundTrip(n: nat)
    ensures AllFigures(Figures(n)) && ReadFigures(Figures(n)) == n && Figures(n) != ""
    ensures Figures(n)[0] == '0' ==> n == 0 && |Figures(n)| == 1
  {
    hide LastFigure, ReadFigures, AllFigures;
    NoFigures();
    var front, last := if n < 10 then "" else Figures(n / 10), LastFigure(n);
    if n >= 10 { FiguresRoundTrip(n / 10); }
    assert Figures(n) == front + [last];
    LastFigureIs(n);
    ReadMore(front, last);
  }

  lemma {:induction false} NoFigures()
    ensures AllFigures("") && ReadFigures("") == 0
  {}

  lemma {:induction false} LastFigureIs(n: nat)
    ensures '0' <= LastFigure(n) <= '9' && (LastFigure(n) - '0') as nat == n % 10
    ensures LastFigure(n) == '0' <==> n % 10 == 0
  {}

  lemma {:induction false} ReadMore(front: string, last: char)
    requires AllFigures(front) && '0' <= last <= '9'
    ensures AllFigures(front + [last])
    ensures ReadFigures(front + [last]) == 10 * ReadFigures(front) + (last - '0') as nat
  {
    assert (front + [last])[..|front|] == front;
  }

  function TrimLeft(s: string): string { if s != "" && Space(s[0]) then TrimLeft(s[1..]) else s }

  function TrimRight(s: string): string { if s != "" && Space(s[|s|-1]) then TrimRight(s[..|s|-1]) else s }

  function Trim(s: string): string { TrimRight(TrimLeft(s)) }

  /** `replace(/\s+/g, ' ')`: each run of white space becomes one blank. */
  function Collapse(s: string): string
    decreases |s|
  {
    if s == "" then ""
    else if Space(s[0]) then TrimLeftShrinks(s); " " + Collapse(TrimLeft(s))
    else [s[0]] + Collapse(s[1..])
  }

  lemma {:induction false} TrimLeftShrinks(s: string)
    ensures |TrimLeft(s)| <= |s| && (s != "" && Space(s[0]) ==> |TrimLeft(s)| < |s|)
    ensures TrimLeft(s) == "" || !Space(TrimLeft(s)[0])
  {
    if s != "" && Space(s[0]) { TrimLeftShrinks(s[1..]); }
  }

  /** Length of the word at the head of `s`. */
  function WordLength(s: string): (n: nat)
    ensures n <= |s| && (forall i :: 0 <= i < n ==> !Space(s[i])) && (n < |s| ==> Space(s[n]))
  { if s == "" || Space(s[0]) then 0 else 1 + WordLength(s[1..]) }

  function Words(s: string): (ws: seq<string>)
    ensures forall w :: w in ws ==> w != ""
    decreases |s|
  {
    if s == "" then []
    else if Space(s[0]) then Words(s[1..])
    else [s[..WordLength(s)]] + Words(s[WordLength(s)..])
  }

  // ----- words do not see surrounding or repeated white space

  lemma {:induction false} WordsTrimLeft(s: string)
    ensures Words(TrimLeft(s)) == Words(s)
  {
    hide Space;
    if s != "" && Space(s[0]) { WordsTrimLeft(s[1..]); }
  }

  lemma {:induction false} WordLengthIs(s: string, n: nat)
    requires n <= |s| && (forall i :: 0 <= i < n ==> !Space(s[i])) && (n < |s| ==> Space(s[n]))
    ensures WordLength(s) == n
  {
    hide Space;
  }

  lemma {:induction false} WordsUnfold(s: string)
    requires s != ""
    ensures Words(s) == if Space(s[0]) then Words(s[1..]) else [s[..WordLength(s)]] + Words(s[WordLength(s)..])
  {
    hide Space, WordLength;
  }

  /** Words on both sides of white space are found separately. */
  lemma {:induction false} WordsSplit(a: string, c: char, b: string)
    requires Space(c)
    ensures Words(a + [c] + b) == Words(a) + Words(b)
    decreases |a|
  {
    hide Space, Words, WordLength;
    var s := a + [c] + b;
    WordsUnfold(s);
    if a == "" {
      assert s[1..] == b && s[0] == c;
      NoWords();
    } else {
      WordsUnfold(a);
      assert s[0] == a[0];
      var n := if Space(a[0]) then 1 else WordLength(a);
      if !Space(a[0]) {
        WordStays(a, c, b);
        assert s[..n] == a[..n];
      }
      assert s[n..] == a[n..] + [c] + b;
      WordsSplit(a[n..], c, b);
    }
  }

  lemma {:induction false} WordStays(a: string, c: char, b: string)
    requires Space(c)
    ensures WordLength(a + [c] + b) == WordLength(a)
  {
    hide Space, WordLength;
    var s := a + [c] + b;
    assert s[|a|] == c && forall i :: 0 <= i < |a| ==> s[i] == a[i];
    WordLengthIs(s, WordLength(a));
  }

  lemma {:induction false} NoWords()
    ensures Words("") == []
  {}

  lemma {:induction false} WordsTrimRight(s: string)
    ensures Words(TrimRight(s)) == Words(s)
  {
    hide Space;
    if s != "" && Space(s[|s|-1]) {
      var front := s[..|s|-1];
      WordsTrimRight(front);
      WordsSplit(front, s[|s|-1], "");
      assert front + [s[|s|-1]] + "" == s;
    }
  }

  lemma {:induction false} WordsOfTrim(s: string)
    ensures Words(Trim(s)) == Words(s)
  {
    WordsTrimRight(TrimLeft(s));
    WordsTrimLeft(s);
  }

  function WordsOfAll(parts: seq<string>): seq<string> {
    if parts == [] then [] else Words(parts[0]) + WordsOfAll(parts[1..])
  }

  lemma {:induction false} AllNonEmpty(parts: seq<string>)
    ensures forall w :: w in WordsOfAll(parts) ==> w != ""
  {
    if parts != [] { AllNonEmpty(parts[1..]); }
  }

  lemma {:induction false} WordsOfJoin(parts: seq<string>)
    ensures Words(JoinSpaces(parts)) == WordsOfAll(parts)
  {
    hide Space;
    if |parts| == 1 {
      assert WordsOfAll(parts[1..]) == [];
    } else if |parts| > 1 {
      WordsOfJoin(parts[1..]);
      BlankIsSpace();
      WordsSplit(parts[0], ' ', JoinSpaces(parts[1..]));
    }
  }

  lemma {:induction false} BlankIsSpace()
    ensures Space(' ')
  {}

  // ----- collapsing and trimming leaves the words, one blank apart

  lemma {:induction false} CollapseWord(w: string, rest: string)
    requires (forall i :: 0 <= i < |w| ==> !Space(w[i])) && (rest == "" || Space(rest[0]))
    ensures Collapse(w + rest) == w + Collapse(rest)
  {
    hide Space;
    if w == "" {
      assert w + rest == rest;
    } else {
      assert (w + rest)[1..] == w[1..] + rest;
      CollapseWord(w[1..], rest);
    }
  }

  lemma {:induction false} TrimRightAppend(a: string, b: string)
    requires TrimRight(b) != ""
    ensures TrimRight(a + b) == a + TrimRight(b)
  {
    hide Space;
    if b != "" && Space(b[|b|-1]) {
      TrimRightAppend(a, b[..|b|-1]);
      assert (a + b)[..|a + b|-1] == a + b[..|b|-1];
    }
  }

  lemma {:induction false} NoWordsIsBlank(s: string)
    ensures Words(s) == [] <==> TrimLeft(s) == ""
  {
    hide Space;
    if s != "" && Space(s[0]) { NoWordsIsBlank(s[1..]); }
  }

  lemma {:induction false} TrimRightKeeps(w: string)
    requires w != "" && !Space(w[|w|-1])
    ensures TrimRight(w) == w
  {}

  /** A text that starts with a word: collapsed and right-trimmed it is its words. */
  lemma {:induction false} CollapseFromWord(s: string)
    requires s != "" && !Space(s[0])
    ensures TrimRight(Collapse(s)) == JoinSpaces(Words(s)) && Words(s) != []
    ensures Collapse(s) != "" && !Space(Collapse(s)[0])
    decreases |s|
  {
    hide Space, TrimRight;
    var n := WordLength(s);
    var w, r := s[..n], s[n..];
    assert s == w + r;
    CollapseWord(w, r);
    assert !Space(w[|w|-1]);
    TrimRightKeeps(w);
    if r == "" {
      assert Collapse(s) == w && Words(s) == [w];
    } else {
      TrimLeftShrinks(r);
      BlankIsSpace();
      var next := TrimLeft(r);
      WordsTrimLeft(r);
      assert Collapse(s) == w + " " + Collapse(next);
      if next == "" {
        assert Words(s) == [w];
        TrimRightBlank(w);
      } else {
        CollapseFromWord(next);
        JoinIsNotEmpty(Words(next));
        TrimRightAppend(w + " ", Collapse(next));
        assert Words(s)[1..] == Words(next);
      }
    }
  }

  lemma {:induction false} JoinIsNotEmpty(ws: seq<string>)
    requires ws != [] && forall w :: w in ws ==> w != ""
    ensures JoinSpaces(ws) != ""
  {
    assert ws[0] in ws;
  }

  lemma {:induction false} TrimRightBlank(w: string)
    requires w != "" && !Space(w[|w|-1])
    ensures TrimRight(w + " " + "") == w
  {
    assert (w + " " + "")[..|w|] == w;
  }

  /** Collapsing then trimming keeps exactly the words, one blank between two. */
  lemma {:induction false} CleanIsWords(s: string)
    ensures Trim(Collapse(s)) == JoinSpaces(Words(s))
  {
    hide Space, TrimRight;
    BlankIsSpace();
    if s != "" {
      if Space(s[0]) {
        TrimLeftShrinks(s);
        WordsTrimLeft(s);
        var t := TrimLeft(s);
        assert Collapse(s)[1..] == Collapse(t);
        assert TrimLeft(Collapse(s)) == TrimLeft(Collapse(t));
        if t != "" { CollapseFromWord(t); } else { EmptyTrim(); }
      } else {
        CollapseFromWord(s);
      }
    } else {
      EmptyTrim();
    }
  }

  lemma {:induction false} EmptyTrim()
    ensures TrimRight("") == ""
  {}

  // ----- transcripts

  /** A message text as the sessions take it: trimmed, empty when there is none. */
  function Text(t: Option<string>): string { if t.Some? then Trim(t.value) else "" }

  /** The final texts of a session, one blank between two words. */
  function Transcript(parts: seq<string>): string { Trim(Collapse(JoinSpaces(parts))) }

  lemma {:induction false} TextHasWords(t: Option<string>)
    ensures Text(t) != "" ==> Words(Text(t)) != []
  {
    if t.Some? {
      WordsOfTrim(t.value);
      NoWordsIsBlank(t.value);
    }
  }

  /** The words of a message text that may be missing. */
  function WordsOf(t: Option<string>): seq<string> { if t.Some? then Words(t.value) else [] }

  lemma {:induction false} TextIsWords(t: Option<string>)
    ensures Words(Text(t)) == WordsOf(t) && (Text(t) == "" <==> WordsOf(t) == [])
  {
    NoWords();
    if t.Some? {
      WordsOfTrim(t.value);
      NoWordsIsBlank(t.value);
      EmptyTrim();
    }
  }

  lemma {:induction false} WordsOfMore(parts: seq<string>, part: string)
    ensures WordsOfAll(parts + [part]) == WordsOfAll(parts) + Words(part)
  {
    hide Words;
    if parts == [] {
      assert [part][1..] == [] && [] + [part] == [part];
    } else {
      WordsOfMore(parts[1..], part);
      assert (parts + [part])[1..] == parts[1..] + [part];
    }
  }

  lemma {:induction false} TranscriptIsWords(parts: seq<string>)
    requires forall p :: p in parts ==> Words(p) != []
    ensures Transcript(parts) == JoinSpaces(WordsOfAll(parts)) && (parts != [] ==> Transcript(parts) != "")
  {
    CleanIsWords(JoinSpaces(parts));
    WordsOfJoin(parts);
    if parts != [] {
      assert parts[0] in parts;
      AllNonEmpty(parts);
      JoinIsNotEmpty(WordsOfAll(parts));
    }
  }
}
