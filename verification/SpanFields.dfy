/** Which fields and values of one macro argument list are reported. */
module SpanFields {
  import opened Common
  import opened Lexer
  import opened Brackets
  import opened Marker
  import opened FieldArgs

  /** A reported violation: its 1-based line and its key. */
  datatype Finding = Finding(line: nat, key: bytes)

  // ----- what is reported, declaratively -----

  ghost predicate ValueFlags(b: bytes, from: nat, z: nat, at: nat, key: bytes)
    requires z <= |b|
  {
    key == VALUE_NEEDLE && FirstNeedle(b, from, z, at)
  }

  /** Some argument before offset `a` is the message of an event macro. */
  ghost predicate AfterMessage(b: bytes, s: nat, e: nat, a: nat)
    requires e <= |b|
  {
    exists x: nat, y: nat :: Piece(b, s, e, x, y) && y < a && KindOf(b, x, y).Message?
  }

  /** Argument `a..z` of the list `s..e` is reported at offset `at` under `key`. */
  ghost predicate ArgFlags(b: bytes, keys: seq<bytes>, s: nat, e: nat, spans: bool, a: nat, z: nat, at: nat, key: bytes)
    requires s <= a <= z <= e <= |b|
    decreases e - s, 0
  {
    if !spans && AfterMessage(b, s, e, a) then ValueFlags(b, a, z, at, key)
    else match KindOf(b, a, z)
      case Field(k, p, v) =>
        (k in keys && key == k && at == p) || (v.Some? && ValueFlags(b, v.value, z, at, key))
      case Group(x, y) =>
        if spans then ValueFlags(b, a, z, at, key)
        else x <= y <= e && y - x < e - s && Flags(b, keys, x, y, false, at, key)
      case _ => ValueFlags(b, a, z, at, key)
  }

  /** The argument list `s..e` reports offset `at` under `key`. */
  ghost predicate Flags(b: bytes, keys: seq<bytes>, s: nat, e: nat, spans: bool, at: nat, key: bytes)
    requires s <= e <= |b|
    decreases e - s, 1
  {
    exists a: nat, z: nat :: Piece(b, s, e, a, z) && ArgFlags(b, keys, s, e, spans, a, z, at, key)
  }

  /** Everything reported lies at a token boundary inside the list, on a line that has text. */
  lemma {:induction false} FlagsAligned(b: bytes, keys: seq<bytes>, s: nat, e: nat, spans: bool, at: nat, key: bytes)
    requires Region(b, s, e) && Flags(b, keys, s, e, spans, at, key)
    ensures s <= at < e && Reach(b, s, at) && b[at] != NEWLINE
    decreases e - s
  {
    var a: nat, z: nat :| Piece(b, s, e, a, z) && ArgFlags(b, keys, s, e, spans, a, z, at, key);
    PieceIsRegion(b, s, e, a, z);
    ArgAligned(b, keys, s, e, spans, a, z, at, key);
    ReachTrans(b, s, a, at);
  }

  lemma {:induction false} ArgAligned(b: bytes, keys: seq<bytes>, s: nat, e: nat, spans: bool, a: nat, z: nat,
                                      at: nat, key: bytes)
    requires s <= a <= z <= e <= |b| && Region(b, a, z)
    requires ArgFlags(b, keys, s, e, spans, a, z, at, key)
    ensures a <= at < z && Reach(b, a, at) && b[at] != NEWLINE
    decreases e - s, 0
  {
    KindAligned(b, a, z);
    var kind := KindOf(b, a, z);
    if ValueFlags(b, a, z, at, key) {
      NeedleIsText(b, a, z, at);
    } else if kind.Field? {
      if kind.value.Some? && ValueFlags(b, kind.value.value, z, at, key) {
        NeedleIsText(b, kind.value.value, z, at);
        ReachBounds(b, a, kind.value.value);
        ReachTrans(b, a, kind.value.value, at);
      }
    } else {
      FlagsAligned(b, keys, kind.start, kind.end, false, at, key);
      ReachTrans(b, a, kind.start, at);
    }
  }

  lemma NeedleIsText(b: bytes, from: nat, z: nat, at: nat)
    requires z <= |b| && CodeNeedle(b, from, z, at)
    ensures b[at] == 105
  {
    assert b[at..at + 10][0] == VALUE_NEEDLE[0];
  }

  /** Splitting the key list splits what is reported. */
  lemma {:induction false} FlagsAdditive(b: bytes, k1: seq<bytes>, k2: seq<bytes>, s: nat, e: nat, spans: bool,
                                         at: nat, key: bytes)
    requires s <= e <= |b|
    ensures Flags(b, k1 + k2, s, e, spans, at, key)
       <==> Flags(b, k1, s, e, spans, at, key) || Flags(b, k2, s, e, spans, at, key)
    decreases e - s, 1
  {
    forall a: nat, z: nat | Piece(b, s, e, a, z)
      ensures ArgFlags(b, k1 + k2, s, e, spans, a, z, at, key)
         <==> ArgFlags(b, k1, s, e, spans, a, z, at, key) || ArgFlags(b, k2, s, e, spans, a, z, at, key)
    {
      ArgFlagsAdditive(b, k1, k2, s, e, spans, a, z, at, key);
    }
  }

  lemma {:induction false} ArgFlagsAdditive(b: bytes, k1: seq<bytes>, k2: seq<bytes>, s: nat, e: nat, spans: bool,
                                            a: nat, z: nat, at: nat, key: bytes)
    requires s <= a <= z <= e <= |b|
    ensures ArgFlags(b, k1 + k2, s, e, spans, a, z, at, key)
       <==> ArgFlags(b, k1, s, e, spans, a, z, at, key) || ArgFlags(b, k2, s, e, spans, a, z, at, key)
    decreases e - s, 0
  {
    var kind := KindOf(b, a, z);
    if kind.Group? && kind.start <= kind.end <= e && kind.end - kind.start < e - s {
      FlagsAdditive(b, k1, k2, kind.start, kind.end, false, at, key);
    }
  }

  // ----- the imperative check -----

  /** Offset `at` shows up as finding `f`: right line, and not suppressed there. */
  ghost predicate Shows(b: bytes, at: nat, f: Finding) {
    && at < |b| && f.line == LineOf(b, at)
    && 1 <= f.line <= |Lines(b)| && !Suppressed(Lines(b), f.line, f.key)
  }

  ghost predicate ValueReports(b: bytes, from: nat, z: nat, f: Finding)
    requires z <= |b|
  {
    exists at: nat :: ValueFlags(b, from, z, at, f.key) && Shows(b, at, f)
  }

  ghost predicate ArgReports(b: bytes, keys: seq<bytes>, s: nat, e: nat, spans: bool, a: nat, z: nat, f: Finding)
    requires s <= a <= z <= e <= |b|
  {
    exists at: nat :: ArgFlags(b, keys, s, e, spans, a, z, at, f.key) && Shows(b, at, f)
  }

  ghost predicate ListReports(b: bytes, keys: seq<bytes>, s: nat, e: nat, spans: bool, f: Finding)
    requires s <= e <= |b|
  {
    exists at: nat :: Flags(b, keys, s, e, spans, at, f.key) && Shows(b, at, f)
  }

  /** Add one finding unless its line or the line above excuses it. */
  method Report(b: bytes, lines: seq<bytes>, at: nat, key: bytes, out0: seq<Finding>) returns (out: seq<Finding>)
    requires at < |b| && b[at] != NEWLINE && lines == Lines(b)
    ensures forall f :: f in out <==> f in out0 || (f.key == key && Shows(b, at, f))
  {
    var line := LineOf(b, at);
    LineIsListed(b, at);
    var excused := HasMarker(lines, line, key);
    out := if excused then out0 else out0 + [Finding(line, key)];
  }

  method CheckValue(b: bytes, lines: seq<bytes>, from: nat, z: nat, out0: seq<Finding>) returns (out: seq<Finding>)
    requires from <= z <= |b| && lines == Lines(b)
    ensures forall f :: f in out <==> f in out0 || ValueReports(b, from, z, f)
  {
    var at := FindValueNeedle(b, from, z);
    if at.None? {
      return out0;
    }
    NeedleIsText(b, from, z, at.value);
    out := Report(b, lines, at.value, VALUE_NEEDLE, out0);
    forall f: Finding ensures (f.key == VALUE_NEEDLE && Shows(b, at.value, f)) <==> ValueReports(b, from, z, f) {
      if ValueReports(b, from, z, f) {
        var p: nat :| ValueFlags(b, from, z, p, f.key) && Shows(b, p, f);
        assert p == at.value;
      }
    }
  }

  /** One argument: its key, its braced group, and the value rule. */
  method CheckArg(b: bytes, lines: seq<bytes>, keys: seq<bytes>, s: nat, e: nat, spans: bool,
                  a: nat, z: nat, past: bool, out0: seq<Finding>)
    returns (out: seq<Finding>, nowPast: bool)
    requires Region(b, s, e) && Piece(b, s, e, a, z) && lines == Lines(b)
    requires past <==> !spans && AfterMessage(b, s, e, a)
    ensures forall f :: f in out <==> f in out0 || ArgReports(b, keys, s, e, spans, a, z, f)
    ensures nowPast <==> past || (!spans && KindOf(b, a, z).Message?)
    decreases e - s, 0
  {
    nowPast := past;
    PieceIsRegion(b, s, e, a, z);
    KindAligned(b, a, z);
    if past {
      out := CheckValue(b, lines, a, z, out0);
      return;
    }
    var kind := ClassifyArg(b, a, z);
    match kind {
      case Field(key, at, value) =>
        out := CheckField(b, lines, keys, key, at, value, z, out0);
      case Group(x, y) =>
        if spans {
          out := CheckValue(b, lines, a, z, out0);
        } else {
          out := CheckArgs(b, lines, keys, x, y, false, out0);
        }
      case Message =>
        nowPast := !spans;
        out := CheckValue(b, lines, a, z, out0);
      case Other =>
        out := CheckValue(b, lines, a, z, out0);
    }
  }

  method CheckField(b: bytes, lines: seq<bytes>, keys: seq<bytes>, key: bytes, at: nat, value: Option<nat>, z: nat,
                    out0: seq<Finding>)
    returns (out: seq<Finding>)
    requires at < z <= |b| && b[at] != NEWLINE && lines == Lines(b)
    requires value.Some? ==> value.value <= z
    ensures forall f :: f in out <==>
              || f in out0
              || (key in keys && f.key == key && Shows(b, at, f))
              || (value.Some? && ValueReports(b, value.value, z, f))
  {
    out := out0;
    if key in keys {
      out := Report(b, lines, at, key, out);
    }
    if value.Some? {
      out := CheckValue(b, lines, value.value, z, out);
    }
  }

  /** Inspect an argument list: the contents of a macro's delimiters or of a field group. */
  method CheckArgs(b: bytes, lines: seq<bytes>, keys: seq<bytes>, s: nat, e: nat, spans: bool, out0: seq<Finding>)
    returns (out: seq<Finding>)
    requires Region(b, s, e) && lines == Lines(b)
    ensures forall f :: f in out <==> f in out0 || ListReports(b, keys, s, e, spans, f)
    decreases e - s, 1
  {
    hide KindOf, Flags, ArgFlags, Shows, AfterMessage, Cut;
    out := out0;
    var past := false;
    var args := SplitArgs(b, s, e);
    var k := 0;
    while k < |args|
      invariant 0 <= k <= |args|
      invariant past <==> !spans && MessageBefore(b, args, k)
      invariant forall f :: f in out <==> f in out0 || PrefixReports(b, keys, s, e, spans, args, k, f)
    {
      MessageBeforeIff(b, s, e, args, k);
      ghost var before := out;
      out, past := CheckArg(b, lines, keys, s, e, spans, args[k].0, args[k].1, past, out);
      PrefixGrows(b, keys, s, e, spans, args, k, before, out0, out);
      k := k + 1;
    }
    PrefixIsAll(b, keys, s, e, spans, args);
  }

  ghost predicate MessageBefore(b: bytes, args: seq<(nat, nat)>, k: nat)
    requires forall j :: 0 <= j < |args| ==> args[j].0 <= args[j].1 <= |b|
  {
    exists j :: 0 <= j < k && j < |args| && KindOf(b, args[j].0, args[j].1).Message?
  }

  ghost predicate PrefixReports(b: bytes, keys: seq<bytes>, s: nat, e: nat, spans: bool, args: seq<(nat, nat)>,
                                k: nat, f: Finding)
    requires e <= |b| && forall j :: 0 <= j < |args| ==> s <= args[j].0 <= args[j].1 <= e
  {
    exists j :: 0 <= j < k && j < |args| && ArgReports(b, keys, s, e, spans, args[j].0, args[j].1, f)
  }

  /** In a tiling, the arguments before the k-th are exactly those ending before it starts. */
  lemma MessageBeforeIff(b: bytes, s: nat, e: nat, args: seq<(nat, nat)>, k: nat)
    requires e <= |b| && Tiles(b, s, e, args) && k < |args|
    requires forall j :: 0 <= j < |args| ==> s <= args[j].0 <= args[j].1 <= e
    ensures MessageBefore(b, args, k) <==> AfterMessage(b, s, e, args[k].0)
  {
    if AfterMessage(b, s, e, args[k].0) {
      var x: nat, y: nat :| Piece(b, s, e, x, y) && y < args[k].0 && KindOf(b, x, y).Message?;
      var j := PieceIndex(b, s, e, args, x, y);
      if j >= k {
        TilesIncrease(b, s, e, args, k, j);
        assert false;
      }
    }
    if MessageBefore(b, args, k) {
      var j :| 0 <= j < k && KindOf(b, args[j].0, args[j].1).Message?;
      TilesIncrease(b, s, e, args, j, k);
      assert Piece(b, s, e, args[j].0, args[j].1);
    }
  }

  lemma {:induction false} TilesIncrease(b: bytes, s: nat, e: nat, args: seq<(nat, nat)>, j: nat, k: nat)
    requires Tiles(b, s, e, args) && j <= k < |args|
    ensures args[j].0 <= args[k].0 && args[j].1 <= args[k].1
    ensures j < k ==> args[j].1 < args[k].0
    decreases k - j
  {
    if j < k {
      TilesIncrease(b, s, e, args, j, k - 1);
      assert args[k].0 == args[k - 1].1 + 1;
      assert Piece(b, s, e, args[k - 1].0, args[k - 1].1);
      assert Piece(b, s, e, args[k].0, args[k].1);
    }
  }

  lemma PrefixGrows(b: bytes, keys: seq<bytes>, s: nat, e: nat, spans: bool, args: seq<(nat, nat)>, k: nat,
                    before: seq<Finding>, out0: seq<Finding>, out: seq<Finding>)
    requires e <= |b| && k < |args| && forall j :: 0 <= j < |args| ==> s <= args[j].0 <= args[j].1 <= e
    requires forall f :: f in before <==> f in out0 || PrefixReports(b, keys, s, e, spans, args, k, f)
    requires forall f :: f in out <==> f in before || ArgReports(b, keys, s, e, spans, args[k].0, args[k].1, f)
    ensures forall f :: f in out <==> f in out0 || PrefixReports(b, keys, s, e, spans, args, k + 1, f)
  {
    forall f ensures PrefixReports(b, keys, s, e, spans, args, k + 1, f)
                <==> PrefixReports(b, keys, s, e, spans, args, k, f)
                     || ArgReports(b, keys, s, e, spans, args[k].0, args[k].1, f)
    {
    }
  }

  lemma PieceIndex(b: bytes, s: nat, e: nat, args: seq<(nat, nat)>, a: nat, z: nat) returns (j: nat)
    requires Tiles(b, s, e, args) && Piece(b, s, e, a, z)
    ensures j < |args| && args[j] == (a, z)
  {
    TilesAreComplete(b, s, e, args, a, z, 0);
    j :| j < |args| && args[j] == (a, z);
  }

  lemma PrefixIsAll(b: bytes, keys: seq<bytes>, s: nat, e: nat, spans: bool, args: seq<(nat, nat)>)
    requires s <= e <= |b| && Tiles(b, s, e, args)
    requires forall j :: 0 <= j < |args| ==> s <= args[j].0 <= args[j].1 <= e
    ensures forall f :: PrefixReports(b, keys, s, e, spans, args, |args|, f) <==> ListReports(b, keys, s, e, spans, f)
  {
    forall f ensures PrefixReports(b, keys, s, e, spans, args, |args|, f) <==> ListReports(b, keys, s, e, spans, f) {
      if PrefixReports(b, keys, s, e, spans, args, |args|, f) {
        ListedIsReported(b, keys, s, e, spans, args, f);
      }
      if ListReports(b, keys, s, e, spans, f) {
        ReportedIsListed(b, keys, s, e, spans, args, f);
      }
    }
  }

  lemma ListedIsReported(b: bytes, keys: seq<bytes>, s: nat, e: nat, spans: bool, args: seq<(nat, nat)>, f: Finding)
    requires s <= e <= |b| && Tiles(b, s, e, args)
    requires forall j :: 0 <= j < |args| ==> s <= args[j].0 <= args[j].1 <= e
    requires PrefixReports(b, keys, s, e, spans, args, |args|, f)
    ensures ListReports(b, keys, s, e, spans, f)
  {
    var j :| 0 <= j < |args| && ArgReports(b, keys, s, e, spans, args[j].0, args[j].1, f);
    var (a, z) := args[j];
    var at: nat :| ArgFlags(b, keys, s, e, spans, a, z, at, f.key) && Shows(b, at, f);
    assert Piece(b, s, e, a, z);
    assert Flags(b, keys, s, e, spans, at, f.key);
  }

  lemma ReportedIsListed(b: bytes, keys: seq<bytes>, s: nat, e: nat, spans: bool, args: seq<(nat, nat)>, f: Finding)
    requires s <= e <= |b| && Tiles(b, s, e, args)
    requires forall j :: 0 <= j < |args| ==> s <= args[j].0 <= args[j].1 <= e
    requires ListReports(b, keys, s, e, spans, f)
    ensures PrefixReports(b, keys, s, e, spans, args, |args|, f)
  {
    var at: nat :| Flags(b, keys, s, e, spans, at, f.key) && Shows(b, at, f);
    var a: nat, z: nat :| Piece(b, s, e, a, z) && ArgFlags(b, keys, s, e, spans, a, z, at, f.key);
    var j := PieceIndex(b, s, e, args, a, z);
    assert ArgReports(b, keys, s, e, spans, args[j].0, args[j].1, f);
  }
}
