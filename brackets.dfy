/** Bracket bookkeeping over a token sequence: the running balance the two loop
    handlers keep, well-nested sources, and the bracket each scan stops on. */
module Brackets {
  import opened Tokenizer

  /** What one token adds to the balance: `[` opens, `]` closes. */
  function Delta(t: Token): (d: int)
    ensures -1 <= d <= 1
    ensures d == 1 <==> t == LoopL
    ensures d == -1 <==> t == LoopR
  {
    if t == LoopL then 1 else if t == LoopR then -1 else 0
  }

  /** #LOOPL - #LOOPR over the tokens s[lo..hi): the amount a scan's balance
      counter moves by over that range, at most one per token. */
  function Net(s: seq<Token>, lo: int, hi: int): (n: int)
    requires 0 <= lo <= hi <= |s|
    ensures -(hi - lo) <= n <= hi - lo
    decreases hi - lo
  {
    if lo == hi then 0 else Net(s, lo, hi - 1) + Delta(s[hi - 1])
  }

  /** The balance over a range is the first token's share plus the rest's. */
  lemma {:induction false} NetCons(s: seq<Token>, lo: int, hi: int)
    requires 0 <= lo < hi <= |s|
    ensures Net(s, lo, hi) == Delta(s[lo]) + Net(s, lo + 1, hi)
    decreases hi - lo
  {
    if lo + 1 < hi {
      NetCons(s, lo, hi - 1);
    }
  }

  /** The balance over adjacent ranges adds up. */
  lemma {:induction false} NetSplit(s: seq<Token>, lo: int, mid: int, hi: int)
    requires 0 <= lo <= mid <= hi <= |s|
    ensures Net(s, lo, hi) == Net(s, lo, mid) + Net(s, mid, hi)
    decreases hi - mid
  {
    if mid < hi {
      NetSplit(s, lo, mid, hi - 1);
    }
  }

  /** Well-nested brackets: no prefix closes more loops than it opened, and the
      whole source closes every loop it opens. */
  predicate Balanced(s: seq<Token>)
  {
    Net(s, 0, |s|) == 0 && forall n :: 0 <= n <= |s| ==> Net(s, 0, n) >= 0
  }

  /** No prefix s[lo..e) with e <= hi has balance v. */
  predicate PrefixesAvoid(s: seq<Token>, lo: int, hi: int, v: int)
    requires 0 <= lo <= hi <= |s|
  {
    forall e :: lo <= e <= hi ==> Net(s, lo, e) != v
  }

  /** No non-empty suffix s[b..hi) with lo <= b has balance v. */
  predicate SuffixesAvoid(s: seq<Token>, lo: int, hi: int, v: int)
    requires 0 <= lo <= hi <= |s|
  {
    forall b :: lo <= b < hi ==> Net(s, b, hi) != v
  }

  /** Every prefix s[lo..e) with e <= hi has a balance of at least 0. */
  predicate PrefixesNonNegative(s: seq<Token>, lo: int, hi: int)
    requires 0 <= lo <= hi <= |s|
  {
    forall e :: lo <= e <= hi ==> Net(s, lo, e) >= 0
  }

  /** Every non-empty suffix s[b..hi) with lo <= b has a balance below 0. */
  predicate SuffixesNegative(s: seq<Token>, lo: int, hi: int)
    requires 0 <= lo <= hi <= |s|
  {
    forall b :: lo <= b < hi ==> Net(s, b, hi) < 0
  }

  /** j is where the forward scan of openLoop stops when started on index i:
      the first j > i at which the balance over s(i..j] reaches -1, so that the
      counter the scan starts at 1 reaches 0. */
  predicate ForwardMatch(s: seq<Token>, i: int, j: int)
  {
    0 <= i < j < |s| &&
    Net(s, i + 1, j + 1) == -1 &&
    PrefixesAvoid(s, i + 1, j, -1)
  }

  /** k is where the backward scan of closeLoop stops when started on index i:
      the greatest k <= i at which the balance over s[k..i] is 0. */
  predicate BackwardMatch(s: seq<Token>, i: int, k: int)
  {
    0 <= k <= i < |s| &&
    Net(s, k, i + 1) == 0 &&
    SuffixesAvoid(s, k + 1, i + 1, 0)
  }

  /** The forward scan finds at most one index. */
  lemma ForwardMatchUnique(s: seq<Token>, i: int, j1: int, j2: int)
    requires ForwardMatch(s, i, j1) && ForwardMatch(s, i, j2)
    ensures j1 == j2
  {
  }

  /** The backward scan finds at most one index. */
  lemma BackwardMatchUnique(s: seq<Token>, i: int, k1: int, k2: int)
    requires BackwardMatch(s, i, k1) && BackwardMatch(s, i, k2)
    ensures k1 == k2
  {
  }

  /** Before the forward scan stops, the balance never went below 0: it moves
      by at most one per token and the first -1 ends the scan. */
  lemma {:induction false} ForwardPrefixNonNegative(s: seq<Token>, i: int, j: int, e: int)
    requires ForwardMatch(s, i, j)
    requires i + 1 <= e <= j
    ensures Net(s, i + 1, e) >= 0
    decreases e
  {
    if e > i + 1 {
      ForwardPrefixNonNegative(s, i, j, e - 1);
    }
  }

  /** Before the backward scan stops, the balance of a `]`'s scan stays below 0. */
  lemma {:induction false} BackwardSuffixNegative(s: seq<Token>, i: int, k: int, b: int)
    requires BackwardMatch(s, i, k) && s[i] == LoopR
    requires k < b <= i
    ensures Net(s, b, i + 1) < 0
    decreases i - b
  {
    NetCons(s, b, i + 1);
    if b < i {
      BackwardSuffixNegative(s, i, k, b + 1);
    }
  }

  /** openLoop stops on a `]`. */
  lemma ForwardMatchIsClose(s: seq<Token>, i: int, j: int)
    requires ForwardMatch(s, i, j)
    ensures s[j] == LoopR
  {
    ForwardPrefixNonNegative(s, i, j, j);
  }

  /** closeLoop, started on a `]`, stops on a `[` strictly before it. */
  lemma BackwardMatchIsOpen(s: seq<Token>, i: int, k: int)
    requires BackwardMatch(s, i, k) && s[i] == LoopR
    ensures k < i && s[k] == LoopL
  {
    NetCons(s, k, i + 1);
    if k < i {
      BackwardSuffixNegative(s, i, k, k + 1);
    }
  }

  /** The two scans pair the same brackets: the `]` the forward scan from a `[`
      stops on is the one whose backward scan returns to that `[`, and the
      other way round. */
  lemma MatchesAgree(s: seq<Token>, i: int, j: int)
    requires 0 <= i < j < |s| && s[i] == LoopL && s[j] == LoopR
    ensures ForwardMatch(s, i, j) <==> BackwardMatch(s, j, i)
  {
    var lo, hi := i + 1, j + 1;
    NetCons(s, i, hi);
    if ForwardMatch(s, i, j) {
      forall b | lo <= b < hi
        ensures Net(s, b, hi) != 0
      {
        NetSplit(s, lo, b, hi);
      }
    }
    if BackwardMatch(s, j, i) {
      forall e | lo <= e <= j
        ensures Net(s, lo, e) != -1
      {
        NetSplit(s, lo, e, hi);
        if e > lo {
          BackwardSuffixNegative(s, j, i, e);
        }
      }
    }
  }

  /** Searching forward from m for the stopping point of a scan from i that
      has not stopped yet and cannot run off the end. */
  lemma {:induction false} FindForward(s: seq<Token>, i: int, m: int)
    requires 0 <= i <= m < |s|
    requires PrefixesNonNegative(s, i + 1, m + 1)
    requires Net(s, i + 1, |s|) < 0
    ensures exists j :: ForwardMatch(s, i, j)
    decreases |s| - m
  {
    assert Net(s, i + 1, m + 1) >= 0;
    assert m + 1 < |s|;
    if Net(s, i + 1, m + 2) == -1 {
      assert ForwardMatch(s, i, m + 1);
    } else {
      FindForward(s, i, m + 1);
    }
  }

  /** Searching backward from b for the stopping point of a scan from i that
      has not stopped yet and cannot run off the start. */
  lemma {:induction false} FindBackward(s: seq<Token>, i: int, b: int)
    requires 0 <= b <= i < |s|
    requires SuffixesNegative(s, b, i + 1)
    requires Net(s, 0, i + 1) >= 0
    ensures exists k :: BackwardMatch(s, i, k)
    decreases b
  {
    assert Net(s, b, i + 1) < 0;
    assert b > 0;
    NetCons(s, b - 1, i + 1);
    if Net(s, b - 1, i + 1) == 0 {
      assert BackwardMatch(s, i, b - 1);
    } else {
      FindBackward(s, i, b - 1);
    }
  }

  /** In a well-nested source every `[` has a stopping point for openLoop:
      its forward scan stays inside the instructions. */
  lemma ForwardMatchExists(s: seq<Token>, i: int)
    requires Balanced(s) && 0 <= i < |s| && s[i] == LoopL
    ensures exists j :: ForwardMatch(s, i, j)
  {
    NetSplit(s, 0, i + 1, |s|);
    assert Net(s, 0, i) >= 0;
    FindForward(s, i, i);
  }

  /** In a well-nested source every `]` has a stopping point for closeLoop:
      its backward scan stays inside the instructions. */
  lemma BackwardMatchExists(s: seq<Token>, i: int)
    requires Balanced(s) && 0 <= i < |s| && s[i] == LoopR
    ensures exists k :: BackwardMatch(s, i, k)
  {
    assert Net(s, 0, i + 1) >= 0;
    assert Net(s, i, i + 1) == -1;
    FindBackward(s, i, i);
  }
}
