/** Bracket matching and argument splitting over the tokenization. */
module Brackets {
  import opened Common
  import opened Lexer

  /** What the token at `i` adds to the bracket depth. */
  function Delta(b: bytes, i: nat): int
    requires i < |b|
  {
    if !Code(b, i) then 0
    else if IsOpener(b[i]) then 1
    else if IsCloser(b[i]) then -1
    else 0
  }

  /** Net bracket depth over the tokens from boundary `i` to boundary `j`. */
  function Net(b: bytes, i: nat, j: nat): int
    requires Reach(b, i, j) && j <= |b|
    decreases j - i
  {
    if i == j then 0 else Delta(b, i) + Net(b, Next(b, i), j)
  }

  lemma {:induction false} NetAdd(b: bytes, i: nat, j: nat, k: nat)
    requires Reach(b, i, j) && Reach(b, j, k) && k <= |b|
    ensures j <= |b| && Reach(b, i, k) && Net(b, i, k) == Net(b, i, j) + Net(b, j, k)
    decreases j - i
  {
    ReachBounds(b, i, j);
    ReachBounds(b, j, k);
    ReachTrans(b, i, j, k);
    if i != j {
      NetAdd(b, Next(b, i), j, k);
    }
  }

  lemma NetStep(b: bytes, i: nat, j: nat)
    requires Reach(b, i, j) && j < |b|
    ensures Reach(b, i, Next(b, j)) && Net(b, i, Next(b, j)) == Net(b, i, j) + Delta(b, j)
  {
    var next := Next(b, j);
    assert Reach(b, next, next);
    assert Reach(b, j, next) && Net(b, next, next) == 0;
    NetAdd(b, i, j, Next(b, j));
  }

  predicate OpenerAt(b: bytes, k: nat) {
    Code(b, k) && (At(b, k, '(') || At(b, k, '[') || At(b, k, '{'))
  }

  predicate CloserAt(b: bytes, k: nat) {
    Code(b, k) && (At(b, k, ')') || At(b, k, ']') || At(b, k, '}'))
  }

  ghost function Openers(b: bytes, i: nat, j: nat): set<nat> {
    set k: nat | i <= k < j && Reach(b, i, k) && OpenerAt(b, k)
  }

  ghost function Closers(b: bytes, i: nat, j: nat): set<nat> {
    set k: nat | i <= k < j && Reach(b, i, k) && CloserAt(b, k)
  }

  /** The net depth is the number of opening brackets less the number of closing ones. */
  lemma {:induction false} NetIsCount(b: bytes, i: nat, j: nat)
    requires Reach(b, i, j) && j <= |b|
    ensures Net(b, i, j) == |Openers(b, i, j)| - |Closers(b, i, j)|
    decreases j - i
  {
    if i < j {
      var n := Next(b, i);
      NoOvershoot(b, i, j);
      NetIsCount(b, n, j);
      BracketsStep(b, i, j, n);
      BracketIsOne(b, i);
      hide Openers, Closers, OpenerAt, CloserAt, Delta, Reach, Next;
    }
  }

  /** The brackets from `i` on are the one at `i`, if it is one, and those from the next boundary on. */
  lemma BracketsStep(b: bytes, i: nat, j: nat, n: nat)
    requires i < j <= |b| && Reach(b, i, j) && n == Next(b, i)
    ensures Openers(b, i, j) == (if OpenerAt(b, i) then {i} else {}) + Openers(b, n, j) && i !in Openers(b, n, j)
    ensures Closers(b, i, j) == (if CloserAt(b, i) then {i} else {}) + Closers(b, n, j) && i !in Closers(b, n, j)
  {
    forall k: nat | i < k < j ensures Reach(b, i, k) <==> n <= k && Reach(b, n, k) {
      if Reach(b, i, k) {
        NoOvershoot(b, i, k);
      }
    }
    assert Reach(b, i, i);
    hide Reach, Next, OpenerAt, CloserAt;
  }

  lemma BracketIsOne(b: bytes, i: nat)
    requires i < |b|
    ensures Delta(b, i) == if OpenerAt(b, i) then 1 else if CloserAt(b, i) then -1 else 0
    ensures !(OpenerAt(b, i) && CloserAt(b, i))
  {
    hide OpaqueEnd;
  }

  /** Depth stays positive at every boundary after `open` up to and including `m`. */
  ghost predicate PositiveTo(b: bytes, open: nat, m: nat) {
    forall k :: open < k <= m && k <= |b| && Reach(b, open, k) ==> Net(b, open, k) > 0
  }

  /** `c` closes `open`: the first boundary past `open` where the net depth is zero is `c + 1`. */
  ghost predicate Matches(b: bytes, open: nat, c: nat) {
    && c < |b| && Reach(b, open, c) && open < c
    && Code(b, c) && IsCloser(b[c])
    && Net(b, open, c) == 1
    && PositiveTo(b, open, c)
  }

  /** The matching close, when there is one. */
  ghost function CloseOf(b: bytes, open: nat): Option<nat> {
    if exists c: nat :: Matches(b, open, c) then
      var c: nat :| Matches(b, open, c);
      Some(c)
    else None
  }

  lemma MatchUnique(b: bytes, open: nat, c: nat, d: nat)
    requires Matches(b, open, c) && Matches(b, open, d)
    ensures c == d
  {
    if c < d {
      ClosedNotPositive(b, open, c, d);
      assert false;
    } else if d < c {
      ClosedNotPositive(b, open, d, c);
      assert false;
    }
  }

  lemma ClosedNotPositive(b: bytes, open: nat, c: nat, d: nat)
    requires Matches(b, open, c) && c < d
    ensures !PositiveTo(b, open, d)
  {
    NetStep(b, open, c);
    assert Next(b, c) == c + 1;
  }

  lemma CloseOfIs(b: bytes, open: nat, c: nat)
    requires Matches(b, open, c)
    ensures CloseOf(b, open) == Some(c)
  {
    var d := CloseOf(b, open).value;
    MatchUnique(b, open, c, d);
  }

  /** No boundary past `open` has net depth zero: nothing closes it, to the end of input. */
  lemma NoZeroNoMatch(b: bytes, open: nat)
    requires forall k :: open < k <= |b| && Reach(b, open, k) ==> Net(b, open, k) != 0
    ensures CloseOf(b, open).None?
  {
    if c: nat :| Matches(b, open, c) {
      NetStep(b, open, c);
      assert false;
    }
  }

  /**
   The bracket matcher. It finds the first boundary where the depth returns to
   zero, answers nothing exactly when there is none, and its depth counter never
   goes below zero.
   */
  method MatchingClose(b: bytes, open: nat) returns (r: Option<nat>)
    requires open < |b| && IsOpener(b[open])
    ensures r == CloseOf(b, open)
    ensures r.Some? ==> Matches(b, open, r.value)
    ensures r.None? ==> forall k :: open < k <= |b| && Reach(b, open, k) ==> Net(b, open, k) > 0
  {
    var depth: nat, i := 0, open;
    while i < |b|
      invariant open <= i <= |b| && Reach(b, open, i)
      invariant depth == Net(b, open, i) && PositiveTo(b, open, i)
      decreases |b| - i
    {
      NetStep(b, open, i);
      OnlyNext(b, open, i);
      assert i > open ==> depth > 0;
      var next := SkipOpaque(b, i);
      if next.Some? {
        i := next.value;
        continue;
      }
      if IsOpener(b[i]) {
        depth := depth + 1;
      } else if IsCloser(b[i]) {
        depth := depth - 1;
        if depth == 0 {
          CloseOfIs(b, open, i);
          return Some(i);
        }
      }
      i := i + 1;
    }
    NoZeroNoMatch(b, open);
    r := None;
  }

  /** Between a boundary and the next one there is no boundary. */
  lemma OnlyNext(b: bytes, s: nat, i: nat)
    requires Reach(b, s, i) && i < |b|
    ensures forall k: nat :: i < k < Next(b, i) ==> !Reach(b, s, k)
  {
    forall k: nat | i < k < Next(b, i) ensures !Reach(b, s, k) {
      if Reach(b, s, k) {
        ReachBetween(b, s, i, k);
        NoOvershoot(b, i, k);
        assert false;
      }
    }
  }

  // ----- balanced regions -----

  /** From boundary `s` to boundary `e` the depth never drops below its start and ends level. */
  ghost predicate Region(b: bytes, s: nat, e: nat) {
    && s <= e <= |b| && Reach(b, s, e)
    && Net(b, s, e) == 0
    && forall k :: s <= k <= e && Reach(b, s, k) ==> Net(b, s, k) >= 0
  }

  /** What lies between a bracket and its match is a balanced region. */
  lemma MatchedInside(b: bytes, open: nat, c: nat)
    requires open < |b| && IsOpener(b[open]) && Matches(b, open, c)
    ensures Region(b, open + 1, c)
  {
    assert Code(b, open) && Next(b, open) == open + 1 && Delta(b, open) == 1;
    NoOvershoot(b, open, c);
    var s := open + 1;
    forall k | s <= k <= c && Reach(b, s, k) ensures Net(b, s, k) >= 0 {
      assert Reach(b, open, k) && Net(b, open, k) == 1 + Net(b, s, k);
    }
  }

  /** A bracket that opens inside a balanced region closes inside it. */
  lemma ClosesInside(b: bytes, s: nat, e: nat, o: nat) returns (c: nat)
    requires Region(b, s, e) && Reach(b, s, o) && o < e && IsOpener(b[o])
    ensures o < c < e && Matches(b, o, c) && CloseOf(b, o) == Some(c)
    ensures Reach(b, s, c)
  {
    ReachBetween(b, s, o, e);
    NetAdd(b, s, o, e);
    NoOvershoot(b, o, e);
    NetStep(b, o, o);
    var i := o + 1;
    OnlyNext(b, o, o);
    while true
      invariant o < i <= e && Reach(b, o, i) && Reach(b, i, e)
      invariant Net(b, o, i) > 0 && PositiveTo(b, o, i)
      decreases e - i
    {
      assert i != e;
      NoOvershoot(b, i, e);
      NetStep(b, o, i);
      OnlyNext(b, o, i);
      if Net(b, o, Next(b, i)) == 0 {
        c := i;
        CloseOfIs(b, o, c);
        ReachTrans(b, s, o, c);
        return;
      }
      i := Next(b, i);
    }
  }

  // ----- argument splitting -----

  /** A comma of the region `s..e` at its own level. */
  ghost predicate Cut(b: bytes, s: nat, e: nat, i: nat) {
    && s <= i < e <= |b| && Reach(b, s, i)
    && b[i] == COMMA && Net(b, s, i) == 0
  }

  /** `a..z` lies between two neighbouring cuts (or ends) of the region. */
  ghost predicate Piece(b: bytes, s: nat, e: nat, a: nat, z: nat) {
    && s <= a <= z <= e
    && (a == s || (a > s && Cut(b, s, e, a - 1)))
    && (z == e || Cut(b, s, e, z))
    && forall i :: a <= i < z ==> !Cut(b, s, e, i)
  }

  /** The pieces `out` tile `s..e` in order, separated exactly by its cuts. */
  ghost predicate Tiles(b: bytes, s: nat, e: nat, out: seq<(nat, nat)>) {
    && |out| >= 1
    && out[0].0 == s && out[|out| - 1].1 == e
    && (forall k :: 0 <= k < |out| ==> Piece(b, s, e, out[k].0, out[k].1))
    && (forall k :: 0 <= k < |out| - 1 ==> out[k + 1].0 == out[k].1 + 1)
  }

  /** A piece of a balanced region is itself balanced. */
  lemma PieceIsRegion(b: bytes, s: nat, e: nat, a: nat, z: nat)
    requires Region(b, s, e) && Piece(b, s, e, a, z)
    ensures Region(b, a, z) && Reach(b, s, a) && Reach(b, s, z)
  {
    if a > s {
      NetStep(b, s, a - 1);
    }
    assert Reach(b, s, a) && Net(b, s, a) == 0;
    assert Reach(b, s, z) && Net(b, s, z) == 0;
    ReachBetween(b, s, a, z);
    NetAdd(b, s, a, z);
    forall k | a <= k <= z && Reach(b, a, k) ensures Net(b, a, k) >= 0 {
      NetAdd(b, s, a, k);
    }
  }

  /** Every piece is listed: tiling misses nothing and invents nothing. */
  lemma {:induction false} TilesAreComplete(b: bytes, s: nat, e: nat, out: seq<(nat, nat)>, a: nat, z: nat, k: nat)
    requires Tiles(b, s, e, out) && Piece(b, s, e, a, z)
    requires k < |out| && out[k].0 <= a
    ensures (a, z) in out
    decreases |out| - k
  {
    var (x, y) := out[k];
    if x == a {
      assert y == z;
    } else {
      assert Cut(b, s, e, a - 1);
      assert y <= a - 1;
      assert y != e;
      TilesAreComplete(b, s, e, out, a, z, k + 1);
    }
  }

  /** Pieces joined by commas. */
  function Rejoin(b: bytes, out: seq<(nat, nat)>): bytes
    requires |out| >= 1 && forall k :: 0 <= k < |out| ==> out[k].0 <= out[k].1 <= |b|
  {
    var init, last := out[..|out| - 1], out[|out| - 1];
    if init == [] then b[last.0..last.1] else Rejoin(b, init) + [COMMA] + b[last.0..last.1]
  }

  lemma {:induction false} RejoinPrefix(b: bytes, s: nat, e: nat, out: seq<(nat, nat)>, n: nat)
    requires Tiles(b, s, e, out) && 1 <= n <= |out| && e <= |b|
    ensures forall k :: 0 <= k < n ==> out[..n][k].0 <= out[..n][k].1 <= |b|
    ensures s <= out[n - 1].1 && Rejoin(b, out[..n]) == b[s..out[n - 1].1]
    decreases n
  {
    assert Piece(b, s, e, out[n - 1].0, out[n - 1].1);
    if n > 1 {
      RejoinPrefix(b, s, e, out, n - 1);
      var cut := out[n - 2].1;
      assert Piece(b, s, e, out[n - 2].0, cut);
      assert cut < e && Cut(b, s, e, cut);
      assert out[..n][..n - 1] == out[..n - 1];
      assert b[s..out[n - 1].1] == b[s..cut] + [b[cut]] + b[cut + 1..out[n - 1].1];
    }
  }

  /** Joining the pieces with commas rebuilds the region. */
  lemma PiecesRebuildRegion(b: bytes, s: nat, e: nat, out: seq<(nat, nat)>)
    requires Region(b, s, e) && Tiles(b, s, e, out)
    ensures forall k :: 0 <= k < |out| ==> out[k].0 <= out[k].1 <= |b|
    ensures Rejoin(b, out) == b[s..e]
  {
    RejoinPrefix(b, s, e, out, |out|);
    assert out[..|out|] == out;
  }

  /** Every cut found so far ends a piece, and the open piece starts after the last one. */
  ghost predicate SplitSoFar(b: bytes, s: nat, e: nat, out: seq<(nat, nat)>, argStart: nat, i: nat) {
    && s <= argStart <= i <= e
    && (out == [] ==> argStart == s)
    && (out != [] ==> out[0].0 == s && argStart == out[|out| - 1].1 + 1 && Cut(b, s, e, argStart - 1))
    && (forall k :: 0 <= k < |out| ==> Piece(b, s, e, out[k].0, out[k].1))
    && (forall k :: 0 <= k < |out| - 1 ==> out[k + 1].0 == out[k].1 + 1)
    && (forall m :: argStart <= m < i ==> !Cut(b, s, e, m))
  }

  lemma SplitAdvances(b: bytes, s: nat, e: nat, out: seq<(nat, nat)>, argStart: nat, i: nat)
    requires SplitSoFar(b, s, e, out, argStart, i) && !Cut(b, s, e, i)
    requires i < e <= |b| && Reach(b, s, i) && Next(b, i) <= e
    ensures SplitSoFar(b, s, e, out, argStart, Next(b, i))
  {
    OnlyNext(b, s, i);
  }

  lemma SplitCuts(b: bytes, s: nat, e: nat, out: seq<(nat, nat)>, argStart: nat, i: nat)
    requires SplitSoFar(b, s, e, out, argStart, i) && Cut(b, s, e, i)
    ensures SplitSoFar(b, s, e, out + [(argStart, i)], i + 1, i + 1)
  {
    assert Piece(b, s, e, argStart, i);
  }

  lemma SplitStarts(b: bytes, s: nat, e: nat)
    requires Region(b, s, e)
    ensures Reach(b, s, s) && Reach(b, s, e) && Net(b, s, s) == 0 && s <= e && SplitSoFar(b, s, e, [], s, s)
  {
  }

  lemma SplitEnds(b: bytes, s: nat, e: nat, out: seq<(nat, nat)>, argStart: nat)
    requires SplitSoFar(b, s, e, out, argStart, e)
    ensures Tiles(b, s, e, out + [(argStart, e)])
  {
    assert Piece(b, s, e, argStart, e);
  }

  /** What one token of a balanced region does to the splitter's state. */
  lemma SplitStep(b: bytes, s: nat, e: nat, out: seq<(nat, nat)>, argStart: nat, i: nat)
    requires Region(b, s, e) && SplitSoFar(b, s, e, out, argStart, i)
    requires i < e && Reach(b, s, i) && Reach(b, i, e)
    ensures Next(b, i) <= e && Reach(b, s, Next(b, i)) && Reach(b, Next(b, i), e)
    ensures 0 <= Net(b, s, Next(b, i)) == Net(b, s, i) + Delta(b, i)
    ensures Code(b, i) && b[i] == COMMA && Net(b, s, i) == 0 ==>
              SplitSoFar(b, s, e, out + [(argStart, i)], i + 1, i + 1)
    ensures !(b[i] == COMMA && Net(b, s, i) == 0) ==> SplitSoFar(b, s, e, out, argStart, Next(b, i))
  {
    NoOvershoot(b, i, e);
    NetStep(b, s, i);
    if Cut(b, s, e, i) {
      SplitCuts(b, s, e, out, argStart, i);
    } else {
      SplitAdvances(b, s, e, out, argStart, i);
    }
  }

  /**
   The splitter. On a balanced region it cuts exactly at the region's own commas;
   on any range at all it stays inside the range it was given.
   */
  method SplitArgs(b: bytes, s: nat, e: nat) returns (out: seq<(nat, nat)>)
    requires s <= e <= |b|
    ensures |out| >= 1 && forall k :: 0 <= k < |out| ==> s <= out[k].0 <= out[k].1 <= e
    ensures Region(b, s, e) ==> Tiles(b, s, e, out)
  {
    hide OpaqueEnd, Net, Region, SplitSoFar, Tiles, Cut;
    out := [];
    var depth: nat, argStart, i := 0, s, s;
    if Region(b, s, e) {
      SplitStarts(b, s, e);
    }
    ghost var region := Region(b, s, e);
    while i < e
      invariant s <= argStart <= e && argStart <= i
      invariant forall k :: 0 <= k < |out| ==> s <= out[k].0 <= out[k].1 <= e
      invariant region ==> i <= e && Reach(b, s, i) && Reach(b, i, e)
      invariant region ==> depth == Net(b, s, i) && SplitSoFar(b, s, e, out, argStart, i)
      decreases |b| - i
    {
      if region {
        SplitStep(b, s, e, out, argStart, i);
      }
      var next := SkipOpaque(b, i);
      if next.Some? {
        i := next.value;
        continue;
      }
      if IsOpener(b[i]) {
        depth := depth + 1;
      } else if IsCloser(b[i]) {
        depth := if depth > 0 then depth - 1 else 0;
      } else if b[i] == COMMA && depth == 0 {
        out := out + [(argStart, i)];
        argStart := i + 1;
      }
      i := i + 1;
    }
    if region {
      SplitEnds(b, s, e, out, argStart);
    }
    out := out + [(argStart, e)];
  }
}
