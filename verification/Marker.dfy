/** Source lines and the suppression marker a line may carry. */
module Marker {
  import opened Common
  import opened Lexer

  /** The bytes of `allow: span-cardinality`. */
  const ALLOW_MARKER: bytes :=
    [97, 108, 108, 111, 119, 58, 32, 115, 112, 97, 110, 45, 99, 97, 114, 100, 105, 110, 97, 108, 105, 116, 121]

  const DOT: byte := 46

  // ----- lines -----

  function Newlines(b: bytes): nat {
    if b == [] then 0 else (if b[0] == NEWLINE then 1 else 0) + Newlines(b[1..])
  }

  /** The 1-based line holding offset `at`. */
  function LineOf(b: bytes, at: nat): nat
    requires at <= |b|
  {
    Newlines(b[..at]) + 1
  }

  function StripReturn(line: bytes): bytes {
    if line != [] && line[|line| - 1] == 13 then line[..|line| - 1] else line
  }

  /** The lines of a text; a final newline does not open another line. */
  function Lines(b: bytes): seq<bytes>
    decreases |b|
  {
    if b == [] then []
    else
      var e := LineEnd(b, 0);
      if e == |b| then [b] else [StripReturn(b[..e])] + Lines(b[e + 1..])
  }

  lemma {:induction false} NewlinesAppend(x: bytes, y: bytes)
    ensures Newlines(x + y) == Newlines(x) + Newlines(y)
  {
    if x == [] {
      assert x + y == y;
    } else {
      assert (x + y)[1..] == x[1..] + y;
      NewlinesAppend(x[1..], y);
    }
  }

  lemma {:induction false} NoNewlines(x: bytes)
    requires NEWLINE !in x
    ensures Newlines(x) == 0
  {
    if x != [] {
      NoNewlines(x[1..]);
    }
  }

  /** A byte that is not a newline lies on a listed line, although a final empty line is dropped. */
  lemma {:induction false} LineIsListed(b: bytes, at: nat)
    requires at < |b| && b[at] != NEWLINE
    ensures 1 <= LineOf(b, at) <= |Lines(b)|
    decreases |b|
  {
    var e := LineEnd(b, 0);
    LineEndIsFirstNewline(b, 0);
    if at < e {
      NoNewlines(b[..at]);
    } else {
      var rest := b[e + 1..];
      var k := at - (e + 1);
      LineIsListed(rest, k);
      assert b[..at] == b[..e] + [NEWLINE] + rest[..k];
      NoNewlines(b[..e]);
      NewlinesAppend(b[..e], [NEWLINE]);
      NewlinesAppend(b[..e] + [NEWLINE], rest[..k]);
      assert [NEWLINE][1..] == [];
    }
  }

  /** Lines are counted from one, and a new one begins exactly behind each newline. */
  lemma LineOfCounts(b: bytes, at: nat)
    requires at <= |b|
    ensures at == 0 ==> LineOf(b, at) == 1
    ensures at > 0 ==> LineOf(b, at) == LineOf(b, at - 1) + if At(b, at - 1, '\n') then 1 else 0
  {
    if at > 0 {
      assert b[..at] == b[..at - 1] + [b[at - 1]];
      NewlinesAppend(b[..at - 1], [b[at - 1]]);
      assert [b[at - 1]][1..] == [];
    }
  }

  ghost function NewlinesBefore(b: bytes, at: nat): set<nat> {
    set k: nat | k < at && At(b, k, '\n')
  }

  /** The line of an offset is one more than the number of newlines before it. */
  lemma {:induction false} LineIsCount(b: bytes, at: nat)
    requires at <= |b|
    ensures LineOf(b, at) == 1 + |NewlinesBefore(b, at)|
  {
    LineOfCounts(b, at);
    if at == 0 {
      assert NewlinesBefore(b, 0) == {};
    } else {
      LineIsCount(b, at - 1);
      hide LineOf;
      var k := at - 1;
      assert NewlinesBefore(b, at) == NewlinesBefore(b, k) + if At(b, k, '\n') then {k} else {};
    }
  }

  /** `s..e` is the stretch between newlines, or the ends of the input, that `at` lies in. */
  ghost predicate LineSpan(b: bytes, at: nat, s: nat, e: nat) {
    && s <= at <= e <= |b|
    && (forall k: nat :: s <= k < e ==> !At(b, k, '\n'))
    && (s == 0 || At(b, s - 1, '\n'))
    && (e == |b| || At(b, e, '\n'))
  }

  /** The text of a stretch; one that a newline ends drops a final carriage return. */
  function LineText(b: bytes, s: nat, e: nat): bytes
    requires s <= e <= |b|
  {
    if e < |b| && s < e && At(b, e - 1, '\r') then b[s..e - 1] else b[s..e]
  }

  /** The listed line of an offset is the text of the stretch it lies in. */
  lemma {:induction false} LineIsText(b: bytes, at: nat, s: nat, e: nat)
    requires at < |b| && LineSpan(b, at, s, e)
    ensures 1 <= LineOf(b, at) <= |Lines(b)| && Lines(b)[LineOf(b, at) - 1] == LineText(b, s, e)
    decreases |b|
  {
    hide *;
    var first := LineEnd(b, 0);
    FirstNewline(b);
    if at <= first {
      FirstLine(b, at, s, e, first);
    } else {
      var rest, n := Behind(b, at, s, e, first);
      LineIsText(rest, at - n, s - n, e - n);
    }
  }

  /** Past the first newline, offsets and lines are those of the rest of the text. */
  lemma Behind(b: bytes, at: nat, s: nat, e: nat, first: nat) returns (rest: bytes, n: nat)
    requires first == LineEnd(b, 0) < at < |b| && LineSpan(b, at, s, e) && At(b, first, '\n')
    requires forall k: nat :: k < first ==> !At(b, k, '\n')
    ensures n <= at && |rest| < |b| && at - n < |rest| && n <= s <= e && LineSpan(rest, at - n, s - n, e - n)
    ensures LineText(rest, s - n, e - n) == LineText(b, s, e)
    ensures |Lines(b)| == 1 + |Lines(rest)| && LineOf(b, at) == 1 + LineOf(rest, at - n)
    ensures forall k :: 1 <= k < |Lines(b)| ==> Lines(b)[k] == Lines(rest)[k - 1]
  {
    hide *;
    n := first + 1;
    rest := b[n..];
    SpanBehind(b, at, s, e, first);
    LaterLine(b, at, first);
    ShiftText(b, n, s, e);
  }

  lemma FirstNewline(b: bytes)
    ensures var first := LineEnd(b, 0);
            (first < |b| ==> At(b, first, '\n')) && forall k: nat :: k < first ==> !At(b, k, '\n')
  {
    LineEndIsFirstNewline(b, 0);
  }

  lemma SpanBehind(b: bytes, at: nat, s: nat, e: nat, first: nat)
    requires LineSpan(b, at, s, e) && first < at && At(b, first, '\n')
    ensures first < s <= e <= |b| && LineSpan(b[first + 1..], at - (first + 1), s - (first + 1), e - (first + 1))
  {
    ShiftSpan(b, first + 1, at, s, e);
  }

  /** Lines behind the first newline are the lines of what follows it. */
  lemma LaterLine(b: bytes, at: nat, first: nat)
    requires first == LineEnd(b, 0) < at <= |b| && At(b, first, '\n')
    requires forall k: nat :: k < first ==> !At(b, k, '\n')
    ensures LineOf(b, at) == 1 + LineOf(b[first + 1..], at - (first + 1))
    ensures |Lines(b)| == 1 + |Lines(b[first + 1..])|
    ensures forall k :: 1 <= k < |Lines(b)| ==> Lines(b)[k] == Lines(b[first + 1..])[k - 1]
  {
    hide StripReturn;
    var rest, k := b[first + 1..], at - (first + 1);
    assert b[..at] == b[..first] + [NEWLINE] + rest[..k];
    assert NEWLINE !in b[..first] by {
      forall k | 0 <= k < first ensures b[k] != NEWLINE {
        assert !At(b, k, '\n');
      }
    }
    NoNewlines(b[..first]);
    NewlinesAppend(b[..first], [NEWLINE]);
    NewlinesAppend(b[..first] + [NEWLINE], rest[..k]);
    assert [NEWLINE][1..] == [];
  }

  lemma FirstLine(b: bytes, at: nat, s: nat, e: nat, first: nat)
    requires at < |b| && LineSpan(b, at, s, e) && at <= first <= |b|
    requires first == LineEnd(b, 0) && (first < |b| ==> At(b, first, '\n'))
    requires forall k: nat :: k < first ==> !At(b, k, '\n')
    ensures LineOf(b, at) == 1 && |Lines(b)| >= 1 && Lines(b)[0] == LineText(b, s, e)
  {
    assert NEWLINE !in b[..at] by {
      forall k | 0 <= k < at ensures b[k] != NEWLINE {
        assert !At(b, k, '\n');
      }
    }
    NoNewlines(b[..at]);
    SpanEnds(b, at, s, e, first);
    assert b[0..e] == b[..e];
  }

  lemma SpanEnds(b: bytes, at: nat, s: nat, e: nat, first: nat)
    requires LineSpan(b, at, s, e) && at <= first <= |b|
    requires (first < |b| ==> At(b, first, '\n')) && forall k: nat :: k < first ==> !At(b, k, '\n')
    ensures s == 0 && e == first
  {
  }

  lemma ShiftSpan(b: bytes, n: nat, at: nat, s: nat, e: nat)
    requires n <= s && n <= |b| && LineSpan(b, at, s, e)
    ensures LineSpan(b[n..], at - n, s - n, e - n)
  {
    forall k: nat | s - n <= k < e - n ensures !At(b[n..], k, '\n') {
      assert !At(b, k + n, '\n');
    }
  }

  lemma ShiftText(b: bytes, n: nat, s: nat, e: nat)
    requires n <= s <= e <= |b|
    ensures LineText(b[n..], s - n, e - n) == LineText(b, s, e)
  {
    assert b[n..][s - n..e - n] == b[s..e];
    if s < e {
      assert b[n..][s - n..e - n - 1] == b[s..e - 1];
    }
  }

  // ----- marker search -----

  /** Byte width of the white-space character `t` starts with; 0 when it starts with none. */
  function SpaceWidth(t: bytes): (w: nat)
    ensures w <= |t|
  {
    if t == [] then 0
    else if 9 <= t[0] <= 13 || t[0] == 32 then 1
    else if |t| >= 2 && t[0] == 0xC2 && (t[1] == 0x85 || t[1] == 0xA0) then 2
    else if |t| < 3 then 0
    else if t[0] == 0xE1 && t[1] == 0x9A && t[2] == 0x80 then 3
    else if t[0] == 0xE2 && t[1] == 0x80 && (0x80 <= t[2] <= 0x8A || t[2] == 0xA8 || t[2] == 0xA9 || t[2] == 0xAF)
    then 3
    else if t[0] == 0xE2 && t[1] == 0x81 && t[2] == 0x9F then 3
    else if t[0] == 0xE3 && t[1] == 0x80 && t[2] == 0x80 then 3
    else 0
  }

  function TrimStart(t: bytes): bytes
    decreases |t|
  {
    if SpaceWidth(t) > 0 then TrimStart(t[SpaceWidth(t)..]) else t
  }

  /** The Unicode white-space characters. */
  predicate IsWhite(cp: nat) {
    || 9 <= cp <= 13 || cp in {0x20, 0x85, 0xA0, 0x1680, 0x2028, 0x2029, 0x202F, 0x205F, 0x3000}
    || 0x2000 <= cp <= 0x200A
  }

  /** UTF-8 of a character below 0x10000. */
  function Utf8(cp: nat): bytes
    requires cp < 0x1_0000
  {
    if cp < 0x80 then [cp]
    else if cp < 0x800 then [0xC0 + cp / 0x40, 0x80 + cp % 0x40]
    else [0xE0 + cp / 0x1000, 0x80 + cp / 0x40 % 0x40, 0x80 + cp % 0x40]
  }

  /** The text begins with the white-space character `cp`. */
  predicate LeadsWith(t: bytes, cp: nat) {
    IsWhite(cp) && Utf8(cp) <= t
  }

  lemma SpaceIff(t: bytes, w: nat)
    requires w > 0
    ensures SpaceWidth(t) == w <==> exists cp: nat :: LeadsWith(t, cp) && |Utf8(cp)| == w
  {
    if SpaceWidth(t) == w {
      var cp: int := t[0];
      if w == 2 {
        cp := t[1];
      } else if w == 3 {
        cp := (cp - 0xE0) * 0x1000;
        var mid: int := t[1];
        cp := cp + (mid - 0x80) * 0x40 + t[2] - 0x80;
      }
      assert LeadsWith(t, cp) && |Utf8(cp)| == w;
    }
    if cp: nat :| LeadsWith(t, cp) && |Utf8(cp)| == w {
      LeadingSpace(t, cp);
    }
  }

  lemma LeadingSpace(t: bytes, cp: nat)
    requires LeadsWith(t, cp)
    ensures SpaceWidth(t) == |Utf8(cp)|
  {
    var u := Utf8(cp);
    assert t[0] == u[0] && (|u| > 1 ==> t[1] == u[1]) && (|u| > 2 ==> t[2] == u[2]);
  }

  function EncodeAll(cps: seq<nat>): bytes
    requires forall k :: 0 <= k < |cps| ==> cps[k] < 0x1_0000
  {
    if cps == [] then [] else Utf8(cps[0]) + EncodeAll(cps[1..])
  }

  /** What `TrimStart` drops is white space, and what it leaves does not begin with any. */
  lemma {:induction false} TrimDropsWhiteSpace(t: bytes) returns (cps: seq<nat>)
    ensures forall k :: 0 <= k < |cps| ==> IsWhite(cps[k]) && cps[k] < 0x1_0000
    ensures t == EncodeAll(cps) + TrimStart(t)
    ensures forall cp: nat :: !LeadsWith(TrimStart(t), cp)
    decreases |t|
  {
    if SpaceWidth(t) > 0 {
      var cp, rest := TrimOne(t);
      hide IsWhite, Utf8, SpaceWidth, TrimStart, LeadsWith;
      var more := TrimDropsWhiteSpace(rest);
      cps := [cp] + more;
      assert cps[1..] == more;
      assert t == Utf8(cp) + (EncodeAll(more) + TrimStart(rest));
    } else {
      cps := [];
      NoLeadingSpace(t);
    }
  }

  lemma TrimOne(t: bytes) returns (cp: nat, rest: bytes)
    requires SpaceWidth(t) > 0
    ensures IsWhite(cp) && cp < 0x1_0000 && |rest| < |t|
    ensures t == Utf8(cp) + rest && TrimStart(t) == TrimStart(rest)
  {
    var w := SpaceWidth(t);
    rest := t[w..];
    SpaceIff(t, w);
    cp :| LeadsWith(t, cp) && |Utf8(cp)| == w;
    WhiteIsSmall(cp);
    hide SpaceWidth, IsWhite;
    assert t[..w] == Utf8(cp);
  }

  lemma WhiteIsSmall(cp: nat)
    requires IsWhite(cp)
    ensures cp < 0x1_0000
  {
  }

  lemma NoLeadingSpace(t: bytes)
    requires SpaceWidth(t) == 0
    ensures forall cp: nat :: !LeadsWith(t, cp)
  {
    forall cp: nat ensures !LeadsWith(t, cp) {
      if LeadsWith(t, cp) {
        LeadingSpace(t, cp);
        assert false;
      }
    }
  }

  /** The marker's text. */
  lemma MarkerSpelling()
    ensures Spells(ALLOW_MARKER, "allow: span-cardinality")
  {
    var text := "allow: span-cardinality";
    assert |text| == 23;
  }

  predicate OccursAt(text: bytes, pattern: bytes, at: nat) {
    at + |pattern| <= |text| && text[at..at + |pattern|] == pattern
  }

  /** After white space `rest` begins with `key`, which ends at a token boundary. */
  predicate StartsWithKey(rest: bytes, key: bytes) {
    var named := TrimStart(rest);
    key <= named && !(|named| > |key| && (IsIdent(named[|key|]) || named[|key|] == DOT))
  }

  /** White space, then the key, then something that does not go on like a name. */
  ghost predicate NamedNext(rest: bytes, key: bytes, spaces: seq<nat>, after: bytes) {
    && (forall k :: 0 <= k < |spaces| ==> IsWhite(spaces[k]) && spaces[k] < 0x1_0000)
    && rest == EncodeAll(spaces) + (key + after)
    && (forall cp: nat :: !LeadsWith(key + after, cp))
    && !(after != [] && (IsIdent(after[0]) || At(after, 0, '.')))
  }

  /** The key test, said without trimming. */
  lemma StartsWithKeyIff(rest: bytes, key: bytes)
    ensures StartsWithKey(rest, key) <==> exists spaces: seq<nat>, after: bytes :: NamedNext(rest, key, spaces, after)
  {
    if StartsWithKey(rest, key) {
      var spaces := TrimDropsWhiteSpace(rest);
      var named := TrimStart(rest);
      var after := named[|key|..];
      hide TrimStart, EncodeAll, LeadsWith, IsWhite;
      assert named == key + after;
      assert NamedNext(rest, key, spaces, after);
    }
    if spaces: seq<nat>, after: bytes :| NamedNext(rest, key, spaces, after) {
      TrimmedIs(spaces, key + after);
      hide TrimStart, EncodeAll, LeadsWith, IsWhite;
      assert (key + after)[..|key|] == key;
    }
  }

  lemma {:induction false} TrimmedIs(spaces: seq<nat>, named: bytes)
    requires forall k :: 0 <= k < |spaces| ==> IsWhite(spaces[k]) && spaces[k] < 0x1_0000
    requires forall cp: nat :: !LeadsWith(named, cp)
    ensures TrimStart(EncodeAll(spaces) + named) == named
  {
    if spaces == [] {
      assert EncodeAll(spaces) + named == named;
      NoSpaceToTrim(named);
    } else {
      var rest := EncodeAll(spaces[1..]) + named;
      TrimmedIs(spaces[1..], named);
      assert EncodeAll(spaces) + named == Utf8(spaces[0]) + rest;
      TrimsOne(spaces[0], rest);
    }
  }

  lemma NoSpaceToTrim(named: bytes)
    requires forall cp: nat :: !LeadsWith(named, cp)
    ensures TrimStart(named) == named
  {
    if SpaceWidth(named) > 0 {
      SpaceIff(named, SpaceWidth(named));
      assert false;
    }
  }

  lemma TrimsOne(cp: nat, rest: bytes)
    requires IsWhite(cp) && cp < 0x1_0000
    ensures TrimStart(Utf8(cp) + rest) == TrimStart(rest)
  {
    var t := Utf8(cp) + rest;
    assert LeadsWith(t, cp);
    LeadingSpace(t, cp);
    hide SpaceWidth, IsWhite, LeadsWith;
    assert t[|Utf8(cp)|..] == rest;
  }

  /** Some occurrence of the marker in `text` names `key`. */
  ghost predicate NamesKey(text: bytes, key: bytes) {
    exists at: nat :: MarkerNames(text, key, at)
  }

  ghost predicate MarkerNames(text: bytes, key: bytes, at: nat) {
    OccursAt(text, ALLOW_MARKER, at) && StartsWithKey(text[at + |ALLOW_MARKER|..], key)
  }

  /** The marker's last byte occurs nowhere else in it. */
  lemma LastByteIsUnique(text: bytes, p: nat)
    requires OccursAt(text, ALLOW_MARKER, p)
    ensures text[p + 22] == 121
    ensures forall k :: p <= k < p + 22 ==> text[k] != 121
  {
    forall k | p <= k < p + 23 ensures text[k] == ALLOW_MARKER[k - p] {
      assert text[p..p + 23][k - p] == text[k];
    }
  }

  /** So the marker cannot overlap itself. */
  lemma MarkersDoNotOverlap(text: bytes, p: nat, q: nat)
    requires OccursAt(text, ALLOW_MARKER, p) && OccursAt(text, ALLOW_MARKER, q) && p < q
    ensures p + |ALLOW_MARKER| <= q
  {
    LastByteIsUnique(text, p);
    LastByteIsUnique(text, q);
  }

  /** The first occurrence of the marker at or after `from`. */
  method FindMarker(text: bytes, from: nat) returns (r: Option<nat>)
    requires from <= |text|
    ensures r.Some? ==> from <= r.value && OccursAt(text, ALLOW_MARKER, r.value)
    ensures forall at: nat :: from <= at && (r.Some? ==> at < r.value) ==> !OccursAt(text, ALLOW_MARKER, at)
  {
    var i := from;
    while i + |ALLOW_MARKER| <= |text|
      invariant from <= i
      invariant forall at: nat :: from <= at < i ==> !OccursAt(text, ALLOW_MARKER, at)
    {
      if text[i..i + |ALLOW_MARKER|] == ALLOW_MARKER {
        return Some(i);
      }
      i := i + 1;
    }
    r := None;
  }

  /**
   The left-to-right search, which resumes behind each occurrence it rejects,
   accepts exactly when some occurrence names the key.
   */
  method MarkerNamesKey(text: bytes, key: bytes) returns (found: bool)
    ensures found <==> NamesKey(text, key)
  {
    var from := 0;
    while true
      invariant from <= |text|
      invariant forall at: nat :: at < from ==> !MarkerNames(text, key, at)
      decreases |text| - from
    {
      var at := FindMarker(text, from);
      if at.None? {
        return false;
      }
      var rest := at.value + |ALLOW_MARKER|;
      if StartsWithKey(text[rest..], key) {
        assert MarkerNames(text, key, at.value);
        return true;
      }
      forall other: nat | other < rest ensures !MarkerNames(text, key, other) {
        if other > at.value && OccursAt(text, ALLOW_MARKER, other) {
          MarkersDoNotOverlap(text, at.value, other);
          assert false;
        }
      }
      from := rest;
    }
  }

  /** The violation's own line or the one above carries a marker naming the key. */
  ghost predicate Suppressed(lines: seq<bytes>, line: nat, key: bytes)
    requires 1 <= line <= |lines|
  {
    NamesKey(lines[line - 1], key) || (line > 1 && NamesKey(lines[line - 2], key))
  }

  method HasMarker(lines: seq<bytes>, line: nat, key: bytes) returns (r: bool)
    requires 1 <= line <= |lines|
    ensures r <==> Suppressed(lines, line, key)
  {
    r := MarkerNamesKey(lines[line - 1], key);
    if !r && line > 1 {
      r := MarkerNamesKey(lines[line - 2], key);
    }
  }
}
