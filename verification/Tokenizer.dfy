/** Util::tokenizeString: cutting a string at delimiter characters. */
module Tokenizer {
  import opened Bytes

  /** std::string::npos; no string is that long. */
  const NPOS := 0xFFFF_FFFF_FFFF_FFFF

  // ---------------------------------------------------------------- maximal runs

  /** s[i..j] is nonempty, free of delimiters, and cannot be extended on either side. */
  predicate IsRun(s: seq<byte>, delims: seq<byte>, i: int, j: int)
  {
    && 0 <= i < j <= |s|
    && (forall k :: i <= k < j ==> s[k] !in delims)
    && (i > 0 ==> s[i - 1] in delims)
    && (j < |s| ==> s[j] in delims)
  }

  /** The first position from p on that is, or is not, a delimiter; |s| if there is none. */
  function Skip(s: seq<byte>, delims: seq<byte>, p: nat, delimiters: bool): (e: nat)
    requires p <= |s|
    ensures p <= e <= |s|
    ensures forall k :: p <= k < e ==> (s[k] in delims <==> delimiters)
    ensures e < |s| ==> !(s[e] in delims <==> delimiters)
    decreases |s| - p
  {
    if p == |s| || !(s[p] in delims <==> delimiters) then p else Skip(s, delims, p + 1, delimiters)
  }

  /** The runs from position p on, as pairs of positions, left to right. */
  function Runs(s: seq<byte>, delims: seq<byte>, p: nat): seq<(nat, nat)>
    requires p <= |s|
    decreases |s| - p
  {
    var i := Skip(s, delims, p, true);
    if i == |s| then []
    else
      var j := Skip(s, delims, i, false);
      [(i, j)] + Runs(s, delims, j)
  }

  ghost predicate Boundary(s: seq<byte>, delims: seq<byte>, p: nat)
    requires p <= |s|
  {
    p == 0 || p == |s| || s[p - 1] in delims || s[p] in delims
  }

  /** Every element of Runs is a maximal run. */
  lemma {:induction false} RunsAreMaximal(s: seq<byte>, delims: seq<byte>, p: nat)
    requires p <= |s| && Boundary(s, delims, p)
    ensures forall r :: r in Runs(s, delims, p) ==> r.0 >= p && IsRun(s, delims, r.0, r.1)
    decreases |s| - p
  {
    var i := Skip(s, delims, p, true);
    if i == |s| {
    } else {
      var j := Skip(s, delims, i, false);
      RunsAreMaximal(s, delims, j);
      assert i > p ==> s[i - 1] in delims;
    }
  }

  /** Every maximal run from p on is an element of Runs. */
  lemma {:induction false} RunsAreComplete(s: seq<byte>, delims: seq<byte>, p: nat, i: nat, j: nat)
    requires p <= i && IsRun(s, delims, i, j)
    ensures (i, j) in Runs(s, delims, p)
    decreases |s| - p
  {
    var i' := Skip(s, delims, p, true);
    assert s[i] !in delims;
    assert i' <= i;
    var j' := Skip(s, delims, i', false);
    if i == i' {
      assert (j < |s| ==> s[j] in delims) && (j' < |s| ==> s[j'] in delims);
      assert j == j';
    } else {
      assert s[i - 1] in delims;
      assert j' <= i;
      RunsAreComplete(s, delims, j', i, j);
    }
  }

  /** The runs come in order and do not touch. */
  lemma {:induction false} RunsInOrder(s: seq<byte>, delims: seq<byte>, p: nat)
    requires p <= |s| && Boundary(s, delims, p)
    ensures forall a, b :: 0 <= a < b < |Runs(s, delims, p)| ==> Runs(s, delims, p)[a].1 < Runs(s, delims, p)[b].0
    decreases |s| - p
  {
    var i := Skip(s, delims, p, true);
    if i == |s| {
    } else {
      var j := Skip(s, delims, i, false);
      var rest := Runs(s, delims, j);
      RunsInOrder(s, delims, j);
      RunsAreMaximal(s, delims, j);
      forall b | 0 <= b < |rest|
        ensures j < rest[b].0
      {
        assert rest[b] in rest;
        assert j < |s| ==> s[j] in delims;
      }
    }
  }

  function Texts(s: seq<byte>, runs: seq<(nat, nat)>): (t: seq<seq<byte>>)
    requires forall r :: r in runs ==> r.0 <= r.1 <= |s|
    ensures |t| == |runs|
  {
    seq(|runs|, k requires 0 <= k < |runs| => assert runs[k] in runs; s[runs[k].0..runs[k].1])
  }

  /** The result of the tokenizer for the whole string. */
  function Tokens(s: seq<byte>, delims: seq<byte>): seq<seq<byte>>
  {
    RunsAreMaximal(s, delims, 0);
    Texts(s, Runs(s, delims, 0))
  }

  /** The tokens are exactly the maximal delimiter-free runs of the string, each once, in order. */
  lemma TokensAreTheRuns(s: seq<byte>, delims: seq<byte>)
    ensures var runs := Runs(s, delims, 0);
            && (forall i: nat, j: nat :: (i, j) in runs <==> IsRun(s, delims, i, j))
            && (forall a, b :: 0 <= a < b < |runs| ==> runs[a].1 < runs[b].0)
            && |Tokens(s, delims)| == |runs|
            && (forall k :: 0 <= k < |runs| ==> IsRun(s, delims, runs[k].0, runs[k].1) && Tokens(s, delims)[k] == s[runs[k].0..runs[k].1])
  {
    var runs := Runs(s, delims, 0);
    RunsAreMaximal(s, delims, 0);
    RunsInOrder(s, delims, 0);
    forall i: nat, j: nat | IsRun(s, delims, i, j)
      ensures (i, j) in runs
    {
      RunsAreComplete(s, delims, 0, i, j);
    }
    forall k | 0 <= k < |runs|
      ensures IsRun(s, delims, runs[k].0, runs[k].1)
    {
      assert runs[k] in runs;
    }
  }

  // ---------------------------------------------------------------- the loop

  /** A position as the library reports it. */
  function Reported(s: seq<byte>, e: nat): nat { if e >= |s| then NPOS else e }

  /** The first position from p on that is (wanted) or is not a delimiter, as the library reports it. */
  function Found(s: seq<byte>, delims: seq<byte>, from: nat, wanted: bool): nat
  {
    if from >= |s| then NPOS else Reported(s, Skip(s, delims, from, !wanted))
  }

  /** find_first_of (wanted) and find_first_not_of (not wanted). */
  method Find(s: seq<byte>, delims: seq<byte>, from: nat, wanted: bool) returns (p: nat)
    requires |s| < NPOS
    ensures p == Found(s, delims, from, wanted)
  {
    if from >= |s| {
      return NPOS;
    }
    p := from;
    while p < |s|
      invariant from <= p <= |s|
      invariant Skip(s, delims, p, !wanted) == Skip(s, delims, from, !wanted)
    {
      if s[p] in delims <==> wanted {
        return;
      }
      p := p + 1;
    }
    return NPOS;
  }

  /** std::string::substr with a count that may reach past the end; count is a size_t difference. */
  function Substr(s: seq<byte>, p: nat, count: nat): seq<byte>
    requires p <= |s|
  {
    if count >= |s| - p then s[p..] else s[p..p + count]
  }

  /** One turn: when a token starts at lastPos it is the next run, and the search goes on behind it. */
  lemma NextRun(s: seq<byte>, delims: seq<byte>, at: nat, lastPos: nat, pos: nat)
    requires |s| < NPOS && at <= |s|
    requires lastPos == Found(s, delims, at, false) && pos == Found(s, delims, lastPos, true)
    ensures lastPos == NPOS ==> pos == NPOS && Runs(s, delims, at) == []
    ensures lastPos != NPOS ==>
              var end := if pos == NPOS then |s| else pos;
              && lastPos < end <= |s| && at < end
              && Runs(s, delims, at) == [(lastPos, end)] + Runs(s, delims, end)
              && Substr(s, lastPos, pos - lastPos) == s[lastPos..end]
              && Found(s, delims, pos, false) == Found(s, delims, end, false)
  {
  }

  /** The runs in done have been pushed, and those from position at on remain. */
  ghost predicate Pushed(s: seq<byte>, delims: seq<byte>, done: seq<(nat, nat)>, at: nat, tokens: seq<seq<byte>>)
  {
    && at <= |s| && Runs(s, delims, 0) == done + Runs(s, delims, at)
    && (forall r :: r in done ==> r.0 <= r.1 <= |s|)
    && tokens == Texts(s, done)
  }

  lemma PushedOneMore(s: seq<byte>, delims: seq<byte>, done: seq<(nat, nat)>, at: nat, tokens: seq<seq<byte>>, i: nat, end: nat)
    requires Pushed(s, delims, done, at, tokens) && i < end <= |s|
    requires Runs(s, delims, at) == [(i, end)] + Runs(s, delims, end)
    ensures Pushed(s, delims, done + [(i, end)], end, tokens + [s[i..end]])
  {
  }

  lemma PushedAll(s: seq<byte>, delims: seq<byte>, done: seq<(nat, nat)>, at: nat, tokens: seq<seq<byte>>)
    requires Pushed(s, delims, done, at, tokens) && Runs(s, delims, at) == []
    ensures tokens == Tokens(s, delims)
  {
  }

  method TokenizeString(s: seq<byte>, delims: seq<byte>) returns (tokens: seq<seq<byte>>)
    requires |s| < NPOS
    ensures tokens == Tokens(s, delims)
  {
    var lastPos := Find(s, delims, 0, false);
    var pos := Find(s, delims, lastPos, true);
    tokens := [];
    ghost var done: seq<(nat, nat)>, at: nat := [], 0;
    while pos != NPOS || lastPos != NPOS
      invariant Pushed(s, delims, done, at, tokens)
      invariant lastPos == Found(s, delims, at, false) && pos == Found(s, delims, lastPos, true)
      decreases |s| - at
    {
      NextRun(s, delims, at, lastPos, pos);
      ghost var end := if pos == NPOS then |s| else pos;
      PushedOneMore(s, delims, done, at, tokens, lastPos, end);
      tokens := tokens + [Substr(s, lastPos, pos - lastPos)];
      done, at := done + [(lastPos, end)], end;
      lastPos := Find(s, delims, pos, false);
      pos := Find(s, delims, lastPos, true);
    }
    NextRun(s, delims, at, lastPos, pos);
    // The loop can only end with lastPos at the end of the string, so the source's last push is dead code.
    if lastPos != NPOS {
      assert false;
    }
    PushedAll(s, delims, done, at, tokens);
  }
}
