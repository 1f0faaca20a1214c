/** Spelled-out names (nb-normalize.ts): runs of three single letters or more become one token. */
module SpelledLetters {
  import opened Wrappers
  import opened Texts

  predicate Letter(t: Token) { |t| == 1 && 'a' <= t[0] <= 'z' }

  lemma {:induction false} LetterIs(c: char)
    ensures Letter([c]) <==> c in "abcdefghijklmnopqrstuvwxyz"
  {
    if Letter([c]) { assert "abcdefghijklmnopqrstuvwxyz"[(c - 'a') as int] == c; }
  }

  ghost predicate Letters(ts: seq<Token>) { forall i :: 0 <= i < |ts| ==> Letter(ts[i]) }

  /** No three single letters in a row. */
  ghost predicate NoSpelling(ts: seq<Token>) {
    forall i :: 0 <= i < |ts| - 2 ==> !(Letter(ts[i]) && Letter(ts[i+1]) && Letter(ts[i+2]))
  }

  /** `n` is where the single letters at the head of `ts` stop. */
  ghost predicate IsRun(ts: seq<Token>, n: nat) {
    n <= |ts| && (forall i :: 0 <= i < n ==> Letter(ts[i])) && (n < |ts| ==> !Letter(ts[n]))
  }

  /** Length of the run of single letters at the head of `ts`. */
  function Run(ts: seq<Token>): (n: nat)
    ensures IsRun(ts, n)
  {
    if ts == [] || !Letter(ts[0]) then 0
    else
      assert forall i :: 0 <= i < |ts| - 1 ==> ts[1..][i] == ts[i+1];
      1 + Run(ts[1..])
  }

  function Join(ts: seq<Token>): seq<Token>
    decreases |ts|
  {
    if ts == [] then []
    else if Run(ts) >= 3 then [Concat(ts[..Run(ts)])] + Join(ts[Run(ts)..])
    else [ts[0]] + Join(ts[1..])
  }

  method JoinSpelledLetters(tokens: seq<Token>) returns (output: seq<Token>)
    ensures output == Join(tokens)
  {
    hide Letter, Run, Concat, Join;
    output := [];
    var index := 0;
    while index < |tokens|
      invariant index <= |tokens| && Join(tokens) == output + Join(tokens[index..])
    {
      ghost var ts := tokens[index..];
      var end := index;
      if Letter(tokens[index]) {
        while end < |tokens| && Letter(tokens[end])
          invariant index <= end <= |tokens| && forall i :: index <= i < end ==> Letter(tokens[i])
        {
          end := end + 1;
        }
      }
      RunBetween(tokens, index, end);
      JoinStep(ts, output);
      if end - index >= 3 {
        assert ts[..end - index] == tokens[index..end] && ts[end - index..] == tokens[end..];
        output := output + [Concat(tokens[index..end])];
        index := end;
      } else {
        assert ts[1..] == tokens[index + 1..];
        output := output + [tokens[index]];
        index := index + 1;
      }
    }
    assert tokens[index..] == [];
    JoinStep([], output);
  }

  lemma {:induction false} RunBetween(tokens: seq<Token>, index: nat, end: nat)
    requires index <= end <= |tokens| && (forall i :: index <= i < end ==> Letter(tokens[i]))
    requires end < |tokens| ==> !Letter(tokens[end])
    ensures Run(tokens[index..]) == end - index
  {
    hide Letter, Run;
    var ts := tokens[index..];
    forall i | 0 <= i < end - index ensures Letter(ts[i]) { assert ts[i] == tokens[index + i]; }
    RunIs(ts, end - index);
  }

  lemma {:induction false} JoinStep(ts: seq<Token>, done: seq<Token>)
    ensures done + Join(ts) == if ts == [] then done
                               else if Run(ts) >= 3 then done + [Concat(ts[..Run(ts)])] + Join(ts[Run(ts)..])
                               else done + [ts[0]] + Join(ts[1..])
  {}

  lemma {:induction false} RunIs(ts: seq<Token>, n: nat)
    requires IsRun(ts, n)
    ensures Run(ts) == n
  {
    hide Letter;
  }

  // ----- two laws that determine the pass

  /** How many tokens the first token of the result stands for. */
  function Width(ts: seq<Token>): (k: nat)
    requires ts != []
    ensures 1 <= k <= |ts|
  { if Run(ts) >= 3 then Run(ts) else 1 }

  lemma {:induction false} JoinUnfold(ts: seq<Token>)
    requires ts != []
    ensures Join(ts) == [if Run(ts) >= 3 then Concat(ts[..Run(ts)]) else ts[0]] + Join(ts[Width(ts)..])
  {
    hide Letter, Run, Concat;
  }

  /** A token that is not a single letter is kept, and separates what is before from what is after. */
  lemma {:induction false} JoinAtWord(before: seq<Token>, word: Token, after: seq<Token>)
    requires !Letter(word)
    ensures Join(before + [word] + after) == Join(before) + [word] + Join(after)
    decreases |before|
  {
    hide Letter, Run, Concat, Join;
    var ts := before + [word] + after;
    JoinUnfold(ts);
    if before == [] {
      RunIs(ts, 0);
      assert ts[1..] == after;
      JoinStep([], []);
    } else {
      var n, k := Run(before), Width(before);
      assert IsRun(ts, n) by { RunGoesOn(before, word, after); }
      RunIs(ts, n);
      JoinUnfold(before);
      assert ts[..n] == before[..n] && ts[k..] == before[k..] + [word] + after && ts[0] == before[0];
      JoinAtWord(before[k..], word, after);
    }
  }

  lemma {:induction false} RunGoesOn(before: seq<Token>, word: Token, after: seq<Token>)
    requires !Letter(word)
    ensures IsRun(before + [word] + after, Run(before))
  {
    hide Letter, Run;
    var ts := before + [word] + after;
    assert ts[|before|] == word && forall i :: 0 <= i < |before| ==> ts[i] == before[i];
  }

  /** A whole list of single letters becomes one token if it is long enough, and is kept otherwise. */
  lemma {:induction false} JoinLettersOnly(ts: seq<Token>)
    requires Letters(ts)
    ensures Join(ts) == if |ts| >= 3 then [Concat(ts)] else ts
  {
    assert ts[..|ts|] == ts;
    RunIs(ts, |ts|);
    if 0 < |ts| < 3 { JoinLettersOnly(ts[1..]); }
  }

  /** No letter is lost, added or moved. */
  lemma {:induction false} JoinKeepsCharacters(ts: seq<Token>)
    ensures Concat(Join(ts)) == Concat(ts)
    decreases |ts|
  {
    if ts != [] {
      var n := if Run(ts) >= 3 then Run(ts) else 1;
      JoinKeepsCharacters(ts[n..]);
      ConcatSplit(ts, n);
      if n == 1 { assert Join(ts)[1..] == Join(ts[1..]); }
      else { assert Join(ts)[1..] == Join(ts[n..]); }
    }
  }

  // ----- fixpoints

  lemma {:induction false} ConcatLength(ts: seq<Token>)
    requires Letters(ts)
    ensures |Concat(ts)| == |ts|
  {
    if ts != [] { ConcatLength(ts[1..]); }
  }

  /** If the result begins with single letters, the input begins with the same ones. */
  lemma {:induction false} JoinKeepsLetterPrefix(ts: seq<Token>, k: nat)
    requires k <= |Join(ts)| && Letters(Join(ts)[..k])
    ensures k <= |ts| && Join(ts)[..k] == ts[..k]
    decreases |ts|
  {
    if k > 0 {
      assert Letter(Join(ts)[..k][0]);
      if Run(ts) >= 3 {
        ConcatLength(ts[..Run(ts)]);
        assert false;
      } else {
        assert Join(ts)[1..] == Join(ts[1..]) && Join(ts)[..k][1..] == Join(ts[1..])[..k-1];
        JoinKeepsLetterPrefix(ts[1..], k - 1);
        assert Join(ts)[..k] == [ts[0]] + Join(ts[1..])[..k-1] == ts[..k];
      }
    }
  }

  lemma {:induction false} LettersStartRun(ts: seq<Token>)
    ensures Run(ts) >= 3 <==> |ts| >= 3 && Letter(ts[0]) && Letter(ts[1]) && Letter(ts[2])
  {
    hide Letter;
  }

  lemma {:induction false} JoinLeavesNoSpelling(ts: seq<Token>)
    ensures NoSpelling(Join(ts))
    decreases |ts|
  {
    if ts != [] {
      var r, n := Join(ts), if Run(ts) >= 3 then Run(ts) else 1;
      JoinLeavesNoSpelling(ts[n..]);
      assert r[1..] == Join(ts[n..]);
      if |r| >= 3 && Letter(r[0]) && Letter(r[1]) && Letter(r[2]) {
        JoinKeepsLetterPrefix(ts, 3);
        LettersStartRun(ts);
        assert false;
      }
      forall i | 0 <= i < |r| - 2 ensures !(Letter(r[i]) && Letter(r[i+1]) && Letter(r[i+2])) {
        if i > 0 { assert r[i] == r[1..][i-1] && r[i+1] == r[1..][i] && r[i+2] == r[1..][i+1]; }
      }
    }
  }

  lemma {:induction false} JoinFixpoint(ts: seq<Token>)
    ensures Join(ts) == ts <==> NoSpelling(ts)
    decreases |ts|
  {
    JoinLeavesNoSpelling(ts);
    if ts != [] && NoSpelling(ts) {
      LettersStartRun(ts);
      assert NoSpelling(ts[1..]);
      JoinFixpoint(ts[1..]);
    }
  }
}
