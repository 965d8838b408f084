/** `adb_strtok_r`: a tokenizer that cuts a NUL-terminated string in place. */
module Strtok {
  import opened Bytes

  /** A token's place in the text: from `lo` up to, not including, `hi`. */
  datatype Span = Span(lo: nat, hi: nat)

  /** A maximal run of bytes that are not delimiters. */
  ghost predicate IsRun(t: seq<byte>, delim: seq<byte>, r: Span) {
    && r.lo < r.hi <= |t|
    && (forall k :: r.lo <= k < r.hi ==> t[k] !in delim)
    && (r.lo == 0 || t[r.lo - 1] in delim)
    && (r.hi == |t| || t[r.hi] in delim)
  }

  /** `runs` holds the maximal runs that begin before `pos`, each once, from left to right. */
  ghost predicate RunsBefore(t: seq<byte>, delim: seq<byte>, runs: seq<Span>, pos: nat) {
    && (forall k :: 0 <= k < |runs| ==> IsRun(t, delim, runs[k]) && runs[k].hi < pos)
    && (forall k, l :: 0 <= k < l < |runs| ==> runs[k].hi < runs[l].lo)
    && (forall r: Span :: IsRun(t, delim, r) && r.lo < pos ==> r in runs)
  }

  /** A place where a scan may resume: the beginning, behind a delimiter, or behind the text. */
  ghost predicate Resumes(t: seq<byte>, delim: seq<byte>, pos: nat) {
    pos == 0 || pos == |t| + 1 || (pos <= |t| && t[pos - 1] in delim)
  }

  /** What one call does to a text scanned from `pos`: it finds nothing but delimiters, or skips
      delimiters up to a run and stops at its end. */
  ghost predicate Scanned(t: seq<byte>, delim: seq<byte>, pos: nat, tok: Option<nat>, last: Option<nat>)
    requires pos <= |t|
  {
    match tok
    case None => last == None && forall k :: pos <= k < |t| ==> t[k] in delim
    case Some(lo) =>
      var hi := if last.Some? then last.value - 1 else |t|;
      && pos <= lo < hi <= |t|
      && (forall k :: pos <= k < lo ==> t[k] in delim)
      && (forall k :: lo <= k < hi ==> t[k] !in delim)
      && (last.Some? ==> hi < |t| && t[hi] in delim)
  }

  /** A call that finds nothing has seen every run. */
  lemma ScanEnds(t: seq<byte>, delim: seq<byte>, runs: seq<Span>, pos: nat)
    requires pos <= |t| && RunsBefore(t, delim, runs, pos) && Scanned(t, delim, pos, None, None)
    ensures RunsBefore(t, delim, runs, |t| + 1)
  {
    forall r: Span | IsRun(t, delim, r) && r.lo < |t| + 1
      ensures r in runs
    {
      assert t[r.lo] !in delim;
    }
  }

  /** A call that finds a token has found the next maximal run, whole. */
  lemma ScanFinds(t: seq<byte>, delim: seq<byte>, runs: seq<Span>, pos: nat, lo: nat, last: Option<nat>)
    requires pos <= |t| && Resumes(t, delim, pos) && RunsBefore(t, delim, runs, pos)
    requires Scanned(t, delim, pos, Some(lo), last)
    ensures
      var hi := if last.Some? then last.value - 1 else |t|;
      && IsRun(t, delim, Span(lo, hi)) && Resumes(t, delim, hi + 1)
      && RunsBefore(t, delim, runs + [Span(lo, hi)], hi + 1)
  {
    var hi := if last.Some? then last.value - 1 else |t|;
    var run := Span(lo, hi);
    var runs' := runs + [run];
    assert IsRun(t, delim, run);
    forall r: Span | IsRun(t, delim, r) && r.lo < hi + 1
      ensures r in runs'
    {
      if r.lo >= pos {
        OnlyRun(t, delim, pos, run, r);
        assert runs'[|runs|] == r;
      } else {
        assert r in runs;
      }
    }
  }

  lemma OnlyRun(t: seq<byte>, delim: seq<byte>, pos: nat, run: Span, r: Span)
    requires IsRun(t, delim, run) && IsRun(t, delim, r) && pos <= r.lo <= run.hi && pos <= run.lo
    requires forall k :: pos <= k < run.lo ==> t[k] in delim
    ensures r == run
  {
    assert t[r.lo] !in delim;
    assert r.lo <= run.lo;
    assert t[run.lo] !in delim;
  }

  /** The loop over the delimiters. */
  method Among(delim: seq<byte>, c: byte) returns (found: bool)
    ensures found <==> c in delim
  {
    var i := 0;
    while i < |delim|
      invariant 0 <= i <= |delim|
      invariant c !in delim[..i]
    {
      if delim[i] == c {
        return true;
      }
      i := i + 1;
    }
    found := false;
  }

  /** `adb_strtok_r`. `end` is where the terminating NUL is. */
  method StrtokR(a: array<byte>, s: Option<nat>, delim: seq<byte>, last: Option<nat>, ghost end: nat)
    returns (tok: Option<nat>, last': Option<nat>)
    requires end < a.Length && a[end] == 0 && 0 !in delim
    requires s.Some? ==> s.value <= end && 0 !in a[s.value..end]
    requires s.None? && last.Some? ==> last.value <= end && 0 !in a[last.value..end]
    modifies a
    ensures
      var from := if s.Some? then s else last;
      match from
      case None => tok == None && last' == None && a[..] == old(a[..])
      case Some(pos) =>
        && Scanned(old(a[..end]), delim, pos, tok, last')
        && a[..] == if last'.Some? then old(a[..])[last'.value - 1 := 0] else old(a[..])
  {
    var from := if s.Some? then s else last;
    if from.None? {
      return None, None;
    }
    var lo := from.value;
    ghost var t := a[..end];
    ghost var pos := lo;
    assert forall k :: pos <= k < end ==> a[pos..end][k - pos] == a[k];
    var skip := Among(delim, a[lo]);
    while skip
      invariant pos <= lo <= end
      invariant forall k :: pos <= k < lo ==> t[k] in delim
      invariant skip <==> a[lo] in delim
      decreases a.Length - lo
      modifies {}
    {
      lo := lo + 1;
      skip := Among(delim, a[lo]);
    }
    if a[lo] == 0 {
      return None, None;
    }
    var hi := lo + 1;
    var stop := Among(delim, a[hi]);
    while !stop && a[hi] != 0
      invariant lo < hi <= end
      invariant forall k :: lo <= k < hi ==> t[k] !in delim
      invariant stop <==> a[hi] in delim
      decreases a.Length - hi
      modifies {}
    {
      hi := hi + 1;
      stop := Among(delim, a[hi]);
    }
    tok := Some(lo);
    if a[hi] == 0 {
      last' := None;
    } else {
      a[hi] := 0;
      last' := Some(hi + 1);
    }
  }

  /** What the buffer holds once it has been cut: every token is a NUL-terminated string in its old
      place, and only delimiters have been overwritten. */
  ghost predicate Cut(t: seq<byte>, now: seq<byte>, delim: seq<byte>, runs: seq<Span>) {
    && |now| > |t| && now[|t|] == 0
    && (forall k :: 0 <= k < |t| ==> now[k] == t[k] || (now[k] == 0 && t[k] in delim))
    && (forall k :: 0 <= k < |runs| ==> IsRun(t, delim, runs[k]) && now[runs[k].hi] == 0)
  }

  lemma CutMore(t: seq<byte>, now: seq<byte>, delim: seq<byte>, runs: seq<Span>, run: Span)
    requires Cut(t, now, delim, runs) && IsRun(t, delim, run)
    ensures Cut(t, now[run.hi := 0], delim, runs + [run])
  {
  }

  /** The state between two calls: the runs before `pos` have been returned, and the buffer from
      `pos` on is still the text. */
  ghost predicate Progress(t: seq<byte>, now: seq<byte>, delim: seq<byte>, runs: seq<Span>, tokens: seq<nat>, pos: nat) {
    && pos <= |t| + 1 && Resumes(t, delim, pos) && RunsBefore(t, delim, runs, pos)
    && Cut(t, now, delim, runs)
    && (forall k :: pos <= k < |t| ==> now[k] == t[k])
    && |tokens| == |runs| && forall k :: 0 <= k < |runs| ==> tokens[k] == runs[k].lo
  }

  /** What a call leaves in the buffer. */
  ghost function After(was: seq<byte>, last: Option<nat>): seq<byte>
    requires last.Some? ==> 0 < last.value <= |was|
  {
    if last.Some? then was[last.value - 1 := 0] else was
  }

  lemma Advance(t: seq<byte>, was: seq<byte>, delim: seq<byte>, runs: seq<Span>, tokens: seq<nat>, pos: nat, lo: nat, last: Option<nat>)
    requires pos <= |t| && Progress(t, was, delim, runs, tokens, pos) && Scanned(t, delim, pos, Some(lo), last)
    ensures
      var hi := if last.Some? then last.value - 1 else |t|;
      Progress(t, After(was, last), delim, runs + [Span(lo, hi)], tokens + [lo], hi + 1)
  {
    var hi := if last.Some? then last.value - 1 else |t|;
    ScanFinds(t, delim, runs, pos, lo, last);
    CutMore(t, was, delim, runs, Span(lo, hi));
    assert last.None? ==> was[hi := 0] == was;
  }

  /** Calling `adb_strtok_r` until it returns NULL yields exactly the maximal runs of bytes that are
      not delimiters, in order. */
  method AllTokens(a: array<byte>, delim: seq<byte>, ghost end: nat) returns (tokens: seq<nat>, ghost runs: seq<Span>)
    requires end < a.Length && a[end] == 0 && 0 !in a[..end] && 0 !in delim
    modifies a
    ensures RunsBefore(old(a[..end]), delim, runs, end + 1)
    ensures |tokens| == |runs| && forall k :: 0 <= k < |runs| ==> tokens[k] == runs[k].lo
    ensures Cut(old(a[..end]), a[..], delim, runs)
  {
    ghost var t := a[..end];
    ghost var pos := 0;
    ghost var was := a[..];
    tokens, runs := [], [];
    assert a[0..end] == t;
    var tok: Option<nat>, last: Option<nat> := StrtokR(a, Some(0), delim, None, end);
    while tok.Some?
      invariant pos <= end && Scanned(t, delim, pos, tok, last)
      invariant |was| == a.Length && a[..] == After(was, last)
      invariant Progress(t, was, delim, runs, tokens, pos)
      decreases end + 1 - pos
    {
      Advance(t, was, delim, runs, tokens, pos, tok.value, last);
      tokens := tokens + [tok.value];
      runs := runs + [Span(tok.value, if last.Some? then last.value - 1 else end)];
      was := a[..];
      if last.None? {
        return;
      }
      pos := last.value;
      tok, last := Next(a, delim, last, t, pos);
    }
    ScanEnds(t, delim, runs, pos);
  }

  /** A later call, with a NULL string. */
  method Next(a: array<byte>, delim: seq<byte>, last: Option<nat>, ghost t: seq<byte>, ghost pos: nat)
    returns (tok: Option<nat>, last': Option<nat>)
    requires |t| < a.Length && a[|t|] == 0 && 0 !in t && 0 !in delim && last == Some(pos) && pos <= |t|
    requires forall k :: pos <= k < |t| ==> a[k] == t[k]
    modifies a
    ensures Scanned(t, delim, pos, tok, last')
    ensures a[..] == if last'.Some? then old(a[..])[last'.value - 1 := 0] else old(a[..])
  {
    assert forall k :: 0 <= k < |t| - pos ==> a[pos..|t|][k] == t[pos + k];
    ghost var t' := a[..|t|];
    tok, last' := StrtokR(a, None, delim, last, |t|);
    assert forall k :: pos <= k < |t| ==> t'[k] == t[k];
  }
}
