/**
 The forms an argument of a tracing macro can take, said over characters and
 without the scanner's own helpers. The classifier finds exactly the form an
 argument has.
 */
module ArgForms {
  import opened Common
  import opened Lexer
  import opened Brackets
  import opened Marker
  import opened FieldArgs

  // ----- white space and comments -----

  ghost predicate White(b: bytes, i: nat) {
    At(b, i, ' ') || At(b, i, '\t') || At(b, i, '\n') || At(b, i, '\r') || At(b, i, '\U{000C}')
  }

  ghost predicate CommentAt(b: bytes, i: nat, end: nat) {
    i + 1 < end && At(b, i, '/') && (At(b, i + 1, '/') || At(b, i + 1, '*'))
  }

  /** One white-space character or one comment, from `i` to `n`. */
  ghost predicate BlankItem(b: bytes, i: nat, end: nat, n: nat)
    requires i < |b|
  {
    (White(b, i) && n == i + 1) || (CommentAt(b, i, end) && Opaque(b, i, n))
  }

  /** Nothing but white space and comments from `i` to `r`, each of them starting before `end`. */
  ghost predicate Blank(b: bytes, i: nat, end: nat, r: nat)
    requires end <= |b|
    decreases r - i
  {
    i == r || (i < end && exists n: nat :: i < n <= r && BlankItem(b, i, end, n) && Blank(b, n, end, r))
  }

  /** The blank stretch from `i` ends at `r`, where neither white space nor a comment goes on before `end`. */
  ghost predicate Trims(b: bytes, i: nat, end: nat, r: nat)
    requires end <= |b|
  {
    Blank(b, i, end, r) && !(r < end && (White(b, r) || CommentAt(b, r, end)))
  }

  lemma SpaceOrComment(b: bytes, i: nat, end: nat)
    requires i < end <= |b|
    ensures White(b, i) <==> IsSpace(b[i])
    ensures CommentAt(b, i, end) <==> StartsComment(b, i, end)
  {
  }

  /** The only item at `i` ends where the next token starts. */
  lemma ItemIff(b: bytes, i: nat, end: nat, n: nat)
    requires i < end <= |b|
    ensures BlankItem(b, i, end, n) <==> (White(b, i) || CommentAt(b, i, end)) && n == Next(b, i)
    ensures White(b, i) ==> Next(b, i) == i + 1
  {
    OpaqueIff(b, i, n);
    hide Opaque;
    assert CommentAt(b, i, end) ==> OpaqueEnd(b, i).Some?;
  }

  lemma {:induction false} TriviaTrims(b: bytes, i: nat, end: nat)
    requires end <= |b|
    ensures Trims(b, i, end, TriviaEnd(b, i, end))
    decreases if i <= |b| then |b| - i else 0
  {
    if i < end {
      SpaceOrComment(b, i, end);
      if White(b, i) || CommentAt(b, i, end) {
        var n := Next(b, i);
        ItemIff(b, i, end, n);
        TriviaTrims(b, n, end);
        hide BlankItem, White, CommentAt;
        assert TriviaEnd(b, i, end) == TriviaEnd(b, n, end);
      }
    }
  }

  lemma {:induction false} TrimsIsTrivia(b: bytes, i: nat, end: nat, r: nat)
    requires end <= |b| && Trims(b, i, end, r)
    ensures r == TriviaEnd(b, i, end)
    decreases r - i
  {
    if i < end {
      SpaceOrComment(b, i, end);
      if i != r {
        var n: nat :| i < n <= r && BlankItem(b, i, end, n) && Blank(b, n, end, r);
        ItemIff(b, i, end, n);
        TrimsIsTrivia(b, n, end, r);
      }
    }
  }

  /** The scanner skips white space and comments, and all of them. */
  lemma TriviaIff(b: bytes, i: nat, end: nat, r: nat)
    requires end <= |b|
    ensures r == TriviaEnd(b, i, end) <==> Trims(b, i, end, r)
  {
    TriviaTrims(b, i, end);
    if Trims(b, i, end, r) {
      TrimsIsTrivia(b, i, end, r);
    }
  }

  // ----- names and keys -----

  predicate NameChar(b: bytes, k: nat) {
    k < |b| && (IsIdent(b[k]) || At(b, k, '.'))
  }

  /** The letters, digits, underscores and dots from `n` before `z` end at `j`. */
  ghost predicate NameRun(b: bytes, n: nat, z: nat, j: nat) {
    && n <= j && (n < j ==> j <= z)
    && (forall k: nat :: n <= k < j ==> NameChar(b, k))
    && !(j < z && NameChar(b, j))
  }

  lemma NameIff(b: bytes, n: nat, z: nat, j: nat)
    requires z <= |b|
    ensures j == NameEnd(b, n, z, true) <==> NameRun(b, n, z, j)
  {
    var e := NameEnd(b, n, z, true);
    assert NameRun(b, n, z, e);
    if NameRun(b, n, z, j) {
      RunIsUnique(b, n, z, e, j);
    }
  }

  lemma RunIsUnique(b: bytes, n: nat, z: nat, e: nat, j: nat)
    requires NameRun(b, n, z, e) && NameRun(b, n, z, j)
    ensures e == j
  {
  }

  /** `seg` is what follows the last dot of `key`, or all of a key without a dot. */
  ghost predicate LastPart(key: bytes, seg: bytes) {
    && (forall k: nat :: k < |seg| ==> !At(seg, k, '.'))
    && |seg| <= |key| && key[|key| - |seg|..] == seg
    && (|seg| == |key| || At(key, |key| - |seg| - 1, '.'))
  }

  /** A dotted key is matched on its last segment. */
  lemma {:induction false} LastSegmentIff(key: bytes, seg: bytes)
    ensures seg == LastSegment(key) <==> LastPart(key, seg)
  {
    SegmentIsLast(key);
    if LastPart(key, seg) {
      LastIsUnique(key, seg, LastSegment(key));
    }
  }

  lemma {:induction false} SegmentIsLast(key: bytes)
    ensures LastPart(key, LastSegment(key))
  {
    if key != [] && key[|key| - 1] != DOT {
      var init := key[..|key| - 1];
      var part := LastSegment(init);
      SegmentIsLast(init);
      SegmentGrows(key, part);
    }
  }

  lemma SegmentGrows(key: bytes, part: bytes)
    requires key != [] && !At(key, |key| - 1, '.') && LastPart(key[..|key| - 1], part)
    ensures LastPart(key, part + [key[|key| - 1]])
  {
    var m := |key| - 1;
    var from := m - |part|;
    var seg := part + [key[m]];
    assert key[..m][from..] == key[from..m];
    assert key[from..] == key[from..m] + [key[m]];
    forall k: nat | k < |seg| ensures !At(seg, k, '.') {
      assert k < |part| ==> !At(part, k, '.');
    }
  }

  lemma LastIsUnique(key: bytes, x: bytes, y: bytes)
    requires LastPart(key, x) && LastPart(key, y)
    ensures x == y
  {
    if |x| < |y| {
      LongerHasDot(key, x, y);
    } else if |y| < |x| {
      LongerHasDot(key, y, x);
    }
  }

  lemma LongerHasDot(key: bytes, x: bytes, y: bytes)
    requires LastPart(key, x) && |x| < |y| <= |key| && key[|key| - |y|..] == y
    ensures exists k: nat :: k < |y| && At(y, k, '.')
  {
    var k := |y| - |x| - 1;
    assert At(y, k, '.');
  }

  // ----- the forms -----

  /** An equals sign that no second one follows, nor, when `arrow`, a greater-than sign. */
  predicate AssignAt(b: bytes, k: nat, arrow: bool) {
    At(b, k, '=') && !At(b, k + 1, '=') && !(arrow && At(b, k + 1, '>'))
  }

  /** Only blanks lie between `from` and `z`. */
  ghost predicate OnlyBlank(b: bytes, from: nat, z: nat)
    requires z <= |b|
  {
    exists t: nat :: t >= z && Trims(b, from, z, t)
  }

  /** A brace at `i` whose match is `c`: a field group when nothing follows it. */
  ghost predicate GroupForm(b: bytes, i: nat, z: nat, c: nat, kind: ArgKind)
    requires z <= |b|
  {
    Matches(b, i, c) && kind == if OnlyBlank(b, c + 1, z) then Group(i + 1, c) else Other
  }

  ghost predicate BracedForm(b: bytes, i: nat, z: nat, kind: ArgKind)
    requires z <= |b|
  {
    || (exists c: nat :: GroupForm(b, i, z, c, kind))
    || (kind == Other && forall c: nat :: !Matches(b, i, c))
  }

  /** What a string that starts behind `i` and ends before `e` holds. */
  function Contents(b: bytes, i: nat, e: nat): bytes
    requires i < e <= |b|
  {
    if e > i + 1 then b[i + 1..e - 1] else []
  }

  /** Behind the string `i..e`: an assignment makes its contents a key, anything else makes it the message. */
  ghost predicate AfterString(b: bytes, i: nat, e: nat, z: nat, kind: ArgKind)
    requires i < e <= |b| && z <= |b|
  {
    exists k: nat, seg: bytes ::
      && Trims(b, e, z, k) && LastPart(Contents(b, i, e), seg)
      && kind == if k < z && AssignAt(b, k, false) then Field(seg, i, Some(k + 1)) else Message
  }

  ghost predicate QuotedForm(b: bytes, i: nat, z: nat, kind: ArgKind)
    requires z <= |b|
  {
    exists e: nat :: EndsString(b, i + 1, e) && i < e <= |b| && AfterString(b, i, e, z, kind)
  }

  /** Behind the name `n..j`: the end, an assignment, or something that makes it no field. */
  ghost predicate AfterName(b: bytes, i: nat, n: nat, j: nat, z: nat, kind: ArgKind)
    requires n <= j <= z <= |b|
  {
    exists k: nat, seg: bytes ::
      && Trims(b, j, z, k) && LastPart(b[n..j], seg)
      && kind == if k >= z then Field(seg, i, None)
                 else if AssignAt(b, k, true) then Field(seg, i, Some(k + 1))
                 else Other
  }

  ghost predicate NameFrom(b: bytes, i: nat, z: nat, n: nat)
    requires z <= |b|
  {
    if At(b, i, '%') || At(b, i, '?') then Trims(b, i + 1, z, n) else n == i
  }

  predicate DigitAt(b: bytes, k: nat) {
    k < |b| && '0' as int <= b[k] <= '9' as int
  }

  /** Anything else: an optional sigil, then a name that does not start with a digit. */
  ghost predicate NamedForm(b: bytes, i: nat, z: nat, kind: ArgKind)
    requires z <= |b|
  {
    exists n: nat, j: nat ::
      && NameFrom(b, i, z, n) && NameRun(b, n, z, j)
      && if n < j <= z && !DigitAt(b, n) then AfterName(b, i, n, j, z, kind) else kind == Other
  }

  /** The argument `a..z` has the form `kind`. */
  ghost predicate HasForm(b: bytes, a: nat, z: nat, kind: ArgKind)
    requires z <= |b|
  {
    exists i: nat :: Trims(b, a, z, i) &&
      if i >= z then kind == Other
      else if At(b, i, '{') then BracedForm(b, i, z, kind)
      else if At(b, i, '"') then QuotedForm(b, i, z, kind)
      else NamedForm(b, i, z, kind)
  }

  /** The classifier answers exactly the form the argument has. */
  lemma KindIff(b: bytes, a: nat, z: nat, kind: ArgKind)
    requires a <= z <= |b|
    ensures kind == KindOf(b, a, z) <==> HasForm(b, a, z, kind)
  {
    var i := TriviaEnd(b, a, z);
    forall t: nat ensures Trims(b, a, z, t) <==> t == i {
      TriviaIff(b, a, z, t);
    }
    if i < z {
      BracedIff(b, i, z, kind);
      QuotedIff(b, i, z, kind);
      NamedIff(b, i, z, kind);
    }
    hide Trims, BracedForm, QuotedForm, NamedForm, GroupKind, QuotedKind, NamedKind, TriviaEnd;
    assert Trims(b, a, z, i);
  }

  lemma BlankIff(b: bytes, from: nat, z: nat)
    requires z <= |b|
    ensures OnlyBlank(b, from, z) <==> TriviaEnd(b, from, z) >= z
  {
    forall t: nat ensures Trims(b, from, z, t) <==> t == TriviaEnd(b, from, z) {
      TriviaIff(b, from, z, t);
    }
    hide Trims, TriviaEnd;
    var t: nat := TriviaEnd(b, from, z);
    assert Trims(b, from, z, t);
  }

  lemma BracedIff(b: bytes, i: nat, z: nat, kind: ArgKind)
    requires i < z <= |b|
    ensures kind == GroupKind(b, i, z) <==> BracedForm(b, i, z, kind)
  {
    hide Matches, OnlyBlank, TriviaEnd;
    if c: nat :| Matches(b, i, c) {
      CloseOfIs(b, i, c);
      forall d: nat | Matches(b, i, d) ensures d == c {
        MatchUnique(b, i, c, d);
      }
      BlankIff(b, c + 1, z);
      assert GroupForm(b, i, z, c, kind) <==> kind == GroupKind(b, i, z);
    }
  }

  lemma AfterStringIff(b: bytes, i: nat, z: nat, kind: ArgKind)
    requires i < z <= |b|
    ensures kind == QuotedKind(b, i, z) <==> AfterString(b, i, StringEnd(b, i + 1), z, kind)
  {
    var e := StringEnd(b, i + 1);
    var k := TriviaEnd(b, e, z);
    var text := Contents(b, i, e);
    var seg := LastSegment(text);
    forall x: nat ensures Trims(b, e, z, x) <==> x == k {
      TriviaIff(b, e, z, x);
    }
    forall x: bytes ensures LastPart(text, x) <==> x == seg {
      LastSegmentIff(text, x);
    }
    hide Trims, LastPart, StringEnd, TriviaEnd, LastSegment;
    assert k < z ==> (IsAssign(b, k, false) <==> AssignAt(b, k, false));
    assert Trims(b, e, z, k) && LastPart(text, seg);
  }

  lemma QuotedIff(b: bytes, i: nat, z: nat, kind: ArgKind)
    requires i < z <= |b|
    ensures kind == QuotedKind(b, i, z) <==> QuotedForm(b, i, z, kind)
  {
    hide *;
    var s := i + 1;
    var e := StringEnd(b, s);
    forall x: nat ensures EndsString(b, s, x) <==> x == e {
      StringIff(b, s, x);
    }
    AfterStringIff(b, i, z, kind);
    UniqueEnd(b, i, z, kind, s, e);
  }

  lemma UniqueEnd(b: bytes, i: nat, z: nat, kind: ArgKind, s: nat, e: nat)
    requires z <= |b| && s == i + 1 && i < e <= |b| && forall x: nat :: EndsString(b, s, x) <==> x == e
    ensures QuotedForm(b, i, z, kind) <==> AfterString(b, i, e, z, kind)
  {
    hide EndsString, AfterString;
    assert EndsString(b, s, e);
  }

  lemma AfterNameIff(b: bytes, i: nat, n: nat, j: nat, z: nat, kind: ArgKind)
    requires n <= j <= z <= |b|
    ensures kind == KindAfterName(b, i, n, j, z) <==> AfterName(b, i, n, j, z, kind)
  {
    var k := TriviaEnd(b, j, z);
    var seg := LastSegment(b[n..j]);
    forall x: nat ensures Trims(b, j, z, x) <==> x == k {
      TriviaIff(b, j, z, x);
    }
    forall x: bytes ensures LastPart(b[n..j], x) <==> x == seg {
      LastSegmentIff(b[n..j], x);
    }
    hide Trims, LastPart, TriviaEnd, LastSegment;
    assert k < z ==> (IsAssign(b, k, true) <==> AssignAt(b, k, true));
    assert Trims(b, j, z, k) && LastPart(b[n..j], seg);
  }

  lemma NamedIff(b: bytes, i: nat, z: nat, kind: ArgKind)
    requires i < z <= |b|
    ensures kind == NamedKind(b, i, z) <==> NamedForm(b, i, z, kind)
  {
    var n := NameStart(b, i, z);
    var j := NameEnd(b, n, z, true);
    forall x: nat ensures NameFrom(b, i, z, x) <==> x == n {
      TriviaIff(b, i + 1, z, x);
    }
    forall x: nat ensures NameRun(b, n, z, x) <==> x == j {
      NameIff(b, n, z, x);
    }
    if n < j {
      AfterNameIff(b, i, n, j, z, kind);
    }
    hide NameFrom, NameRun, NameStart, NameEnd, AfterName, KindAfterName;
    assert NameFrom(b, i, z, n) && NameRun(b, n, z, j);
  }
}
