/**
 The scanner's lexer: which byte runs are literals or comments, and the one
 left-to-right tokenization every other walk has to agree with.
 */
module Lexer {
  import opened Common

  const NEWLINE: byte := 10
  const QUOTE: byte := 34
  const HASH: byte := 35
  const APOSTROPHE: byte := 39
  const STAR: byte := 42
  const COMMA: byte := 44
  const SLASH: byte := 47
  const OPEN_BRACKET: byte := 91
  const BACKSLASH: byte := 92
  const LOWER_R: byte := 114

  predicate IsIdent(c: byte) {
    48 <= c <= 57 || 65 <= c <= 90 || 97 <= c <= 122 || c == 95
  }

  predicate IsOpener(c: byte) {
    c == 40 || c == OPEN_BRACKET || c == 123
  }

  predicate IsCloser(c: byte) {
    c == 41 || c == 93 || c == 125
  }

  // ----- where a literal or comment ends -----

  /** The newline that ends a line comment, or the end of input. */
  function LineEnd(b: bytes, i: nat): (r: nat)
    requires i <= |b|
    ensures i <= r <= |b|
    decreases |b| - i
  {
    if i < |b| && b[i] != NEWLINE then LineEnd(b, i + 1) else i
  }

  /** A line comment runs exactly to the first newline. */
  lemma {:induction false} LineEndIsFirstNewline(b: bytes, i: nat)
    requires i <= |b|
    ensures var r := LineEnd(b, i);
            (r < |b| ==> b[r] == NEWLINE) && forall k :: i <= k < r ==> b[k] != NEWLINE
    decreases |b| - i
  {
    if i < |b| && b[i] != NEWLINE {
      LineEndIsFirstNewline(b, i + 1);
    }
  }

  predicate Pair(b: bytes, i: nat, c: byte, d: byte) {
    i + 1 < |b| && b[i] == c && b[i + 1] == d
  }

  /** Past the end of a nested block comment `depth` levels deep at `i`. */
  function BlockEnd(b: bytes, i: nat, depth: nat): (r: nat)
    requires i <= |b|
    ensures i <= r <= |b|
    decreases |b| - i
  {
    if i == |b| || depth == 0 then i
    else if Pair(b, i, SLASH, STAR) then BlockEnd(b, i + 2, depth + 1)
    else if Pair(b, i, STAR, SLASH) then BlockEnd(b, i + 2, depth - 1)
    else BlockEnd(b, i + 1, depth)
  }

  /** Past the first quote at or after `i` that no backslash escapes. */
  function StringEnd(b: bytes, i: nat): (r: nat)
    ensures r <= |b|
    ensures i <= |b| ==> i <= r
    decreases if i <= |b| then |b| - i else 0
  {
    if i >= |b| then |b|
    else if b[i] == BACKSLASH then StringEnd(b, i + 2)
    else if b[i] == QUOTE then i + 1
    else StringEnd(b, i + 1)
  }

  /** How many backslashes stand directly before `k`, counted back to `i` at most. */
  function Backslashes(b: bytes, i: nat, k: nat): nat
    requires i <= k <= |b|
  {
    if i < k && b[k - 1] == BACKSLASH then 1 + Backslashes(b, i, k - 1) else 0
  }

  /** A quote at `k` that no backslash since `i` escapes. */
  predicate ClosesString(b: bytes, i: nat, k: nat) {
    i <= k < |b| && b[k] == QUOTE && Backslashes(b, i, k) % 2 == 0
  }

  /** `r` lies past the first unescaped quote from `i` on, or at the end of the input when there is none. */
  ghost predicate EndsString(b: bytes, i: nat, r: nat) {
    && (forall k: nat :: k + 1 < r ==> !ClosesString(b, i, k))
    && ((i < r && ClosesString(b, i, r - 1)) || (r == |b| && forall k: nat :: !ClosesString(b, i, k)))
  }

  /** A string ends past its first unescaped quote, or with the input when it has none. */
  lemma {:induction false} StringEndIsFirstUnescaped(b: bytes, i: nat)
    requires i <= |b|
    ensures EndsString(b, i, StringEnd(b, i))
    decreases |b| - i
  {
    if i < |b| && b[i] == BACKSLASH {
      EscapeClosesNothing(b, i);
      if i + 1 < |b| {
        StringEndIsFirstUnescaped(b, i + 2);
        forall k: nat | i + 2 <= k < |b| ensures ClosesString(b, i, k) <==> ClosesString(b, i + 2, k) {
          SkipEscape(b, i, k);
        }
        EndsFromHere(b, i, i + 2, StringEnd(b, i));
      }
    } else if i < |b| && b[i] != QUOTE {
      StringEndIsFirstUnescaped(b, i + 1);
      forall k: nat | i + 1 <= k < |b| ensures ClosesString(b, i, k) <==> ClosesString(b, i + 1, k) {
        SkipPlain(b, i, k);
      }
      EndsFromHere(b, i, i + 1, StringEnd(b, i));
    } else if i < |b| {
      assert Backslashes(b, i, i) == 0 && ClosesString(b, i, i);
    }
  }

  lemma EscapeClosesNothing(b: bytes, i: nat)
    requires i < |b| && b[i] == BACKSLASH
    ensures !ClosesString(b, i, i) && !ClosesString(b, i, i + 1)
  {
    if i + 1 < |b| {
      assert Backslashes(b, i, i) == 0;
      assert Backslashes(b, i, i + 1) == 1;
    }
  }

  /** Where nothing closes before `j` and the same quotes close from there on, the end is the same. */
  lemma EndsFromHere(b: bytes, i: nat, j: nat, r: nat)
    requires i < j <= |b| && EndsString(b, j, r)
    requires forall k: nat :: i <= k < j ==> !ClosesString(b, i, k)
    requires forall k: nat :: j <= k < |b| ==> (ClosesString(b, i, k) <==> ClosesString(b, j, k))
    ensures EndsString(b, i, r)
  {
    hide Backslashes;
  }

  lemma {:induction false} SkipPlain(b: bytes, i: nat, k: nat)
    requires i < k <= |b| && b[i] != BACKSLASH
    ensures Backslashes(b, i, k) == Backslashes(b, i + 1, k)
    decreases k
  {
    if i + 1 < k {
      SkipPlain(b, i, k - 1);
    }
  }

  /** An escape of two bytes does not change the parity of what follows. */
  lemma {:induction false} SkipEscape(b: bytes, i: nat, k: nat)
    requires i + 2 <= k <= |b| && b[i] == BACKSLASH
    ensures Backslashes(b, i, k) % 2 == Backslashes(b, i + 2, k) % 2
    decreases k
  {
    if i + 2 < k {
      SkipEscape(b, i, k - 1);
    } else {
      assert Backslashes(b, i, i + 1) == 1;
    }
  }

  /** The marks of comment nesting are read two bytes at a time, everything else one byte at a time. */
  function Hop(b: bytes, i: nat): nat {
    if Pair(b, i, SLASH, STAR) || Pair(b, i, STAR, SLASH) then i + 2 else i + 1
  }

  ghost predicate Marks(b: bytes, i: nat, j: nat)
    decreases j - i
  {
    i == j || (i < j && i < |b| && Marks(b, Hop(b, i), j))
  }

  /** Comments opened minus comments closed by the marks from `i` to `j`. */
  ghost function Nesting(b: bytes, i: nat, j: nat): int
    requires Marks(b, i, j)
    decreases j - i
  {
    if i == j then 0
    else (if Pair(b, i, SLASH, STAR) then 1 else if Pair(b, i, STAR, SLASH) then -1 else 0) + Nesting(b, Hop(b, i), j)
  }

  /** A block comment `depth` levels deep ends where its nesting first returns to zero, or with the input. */
  lemma {:induction false} BlockEndIsFirstLevel(b: bytes, i: nat, depth: nat)
    requires i <= |b|
    ensures var r := BlockEnd(b, i, depth);
            && Marks(b, i, r)
            && (r < |b| ==> depth + Nesting(b, i, r) == 0)
            && forall k: nat :: k < r && Marks(b, i, k) ==> depth + Nesting(b, i, k) > 0
    decreases |b| - i
  {
    if i < |b| && depth > 0 {
      var deeper := if Pair(b, i, SLASH, STAR) then depth + 1 else if Pair(b, i, STAR, SLASH) then depth - 1 else depth;
      BlockEndIsFirstLevel(b, Hop(b, i), deeper);
    }
  }

  function HashesEnd(b: bytes, i: nat): (r: nat)
    requires i <= |b|
    ensures i <= r <= |b|
    decreases |b| - i
  {
    if i < |b| && b[i] == HASH then HashesEnd(b, i + 1) else i
  }

  /** A quote at `i` followed by `hashes` hash signs, as far as the input goes. */
  predicate RawCloses(b: bytes, i: nat, hashes: nat) {
    i < |b| && b[i] == QUOTE && forall k :: i < k <= i + hashes && k < |b| ==> b[k] == HASH
  }

  /** The first position at or after `i` where a raw string with `hashes` hash signs closes. */
  function RawClose(b: bytes, i: nat, hashes: nat): (r: nat)
    requires i <= |b|
    ensures i <= r <= |b|
    decreases |b| - i
  {
    if i < |b| && !RawCloses(b, i, hashes) then RawClose(b, i + 1, hashes) else i
  }

  /** A raw string closes at the first quote followed by as many hash signs as opened it. */
  lemma {:induction false} RawCloseIsFirst(b: bytes, i: nat, hashes: nat)
    requires i <= |b|
    ensures var r := RawClose(b, i, hashes);
            (r < |b| ==> RawCloses(b, r, hashes)) && forall k :: i <= k < r ==> !RawCloses(b, k, hashes)
    decreases |b| - i
  {
    if i < |b| && !RawCloses(b, i, hashes) {
      RawCloseIsFirst(b, i + 1, hashes);
    }
  }

  /** The first apostrophe at or after `i`, or `i` itself past the end. */
  function ApostropheFrom(b: bytes, i: nat): (r: nat)
    ensures i <= r
    decreases if i <= |b| then |b| - i else 0
  {
    if i < |b| && b[i] != APOSTROPHE then ApostropheFrom(b, i + 1) else i
  }

  function Min(x: nat, y: nat): nat {
    if x <= y then x else y
  }

  predicate IdentBefore(b: bytes, i: nat)
    requires i <= |b|
  {
    i > 0 && IsIdent(b[i - 1])
  }

  /** Past the literal or comment that starts at `i`, or nothing when none does. */
  function OpaqueEnd(b: bytes, i: nat): (r: Option<nat>)
    requires i < |b|
    ensures r.Some? ==> i < r.value <= |b|
    ensures IsOpener(b[i]) || IsCloser(b[i]) || b[i] == COMMA || b[i] == HASH ==> r.None?
    ensures IsIdent(b[i]) && IdentBefore(b, i) ==> r.None?
  {
    if Pair(b, i, SLASH, SLASH) then
      assert b[i] != NEWLINE;
      Some(LineEnd(b, i + 1))
    else if Pair(b, i, SLASH, STAR) then Some(BlockEnd(b, i + 2, 1))
    else if b[i] == QUOTE then Some(StringEnd(b, i + 1))
    else if b[i] == LOWER_R && !IdentBefore(b, i) then
      var j := HashesEnd(b, i + 1);
      if j < |b| && b[j] == QUOTE then
        var hashes := j - (i + 1);
        var close := RawClose(b, j + 1, hashes);
        Some(if close < |b| then Min(close + 1 + hashes, |b|) else |b|)
      else None
    else if b[i] == APOSTROPHE then
      if i + 1 < |b| && b[i + 1] == BACKSLASH then Some(Min(ApostropheFrom(b, i + 3) + 1, |b|))
      else if i + 2 < |b| && b[i + 2] == APOSTROPHE then Some(i + 3)
      else None
    else None
  }

  /** `i` is past an opening quote; the result is past the closing one. */
  method SkipString(b: bytes, i: nat) returns (r: nat)
    ensures r == StringEnd(b, i)
    ensures i <= |b| ==> EndsString(b, i, r)
  {
    if i <= |b| {
      StringEndIsFirstUnescaped(b, i);
    }
    r := i;
    while r < |b|
      invariant StringEnd(b, r) == StringEnd(b, i)
      decreases |b| - r
    {
      if b[r] == BACKSLASH {
        r := r + 2;
      } else if b[r] == QUOTE {
        return r + 1;
      } else {
        r := r + 1;
      }
    }
    r := |b|;
  }

  method SkipLineComment(b: bytes, i: nat) returns (r: nat)
    requires i < |b| && b[i] != NEWLINE
    ensures r == LineEnd(b, i + 1)
  {
    r := i;
    while r < |b| && b[r] != NEWLINE
      invariant i <= r <= |b|
      invariant r == i || LineEnd(b, i + 1) == LineEnd(b, r)
      decreases |b| - r
    {
      r := r + 1;
    }
  }

  method SkipBlockComment(b: bytes, i: nat) returns (r: nat)
    requires i <= |b|
    ensures r == BlockEnd(b, i, 1)
    ensures Marks(b, i, r) && (r < |b| ==> 1 + Nesting(b, i, r) == 0)
    ensures forall k: nat :: k < r && Marks(b, i, k) ==> 1 + Nesting(b, i, k) > 0
  {
    BlockEndIsFirstLevel(b, i, 1);
    var depth: nat := 1;
    r := i;
    while r < |b| && depth > 0
      invariant i <= r <= |b|
      invariant BlockEnd(b, i, 1) == BlockEnd(b, r, depth)
      decreases |b| - r
    {
      if Pair(b, r, SLASH, STAR) {
        depth, r := depth + 1, r + 2;
      } else if Pair(b, r, STAR, SLASH) {
        depth, r := depth - 1, r + 2;
      } else {
        r := r + 1;
      }
    }
  }

  method SkipRawString(b: bytes, i: nat) returns (r: Option<nat>)
    requires i < |b| && b[i] == LOWER_R && !IdentBefore(b, i)
    ensures r == OpaqueEnd(b, i)
  {
    var j, hashes := i + 1, 0;
    while j < |b| && b[j] == HASH
      invariant i + 1 <= j <= |b| && hashes == j - (i + 1)
      invariant HashesEnd(b, i + 1) == HashesEnd(b, j)
    {
      j, hashes := j + 1, hashes + 1;
    }
    if j == |b| || b[j] != QUOTE {
      return None;
    }
    j := j + 1;
    ghost var from := j;
    while j < |b|
      invariant from <= j <= |b|
      invariant RawClose(b, from, hashes) == RawClose(b, j, hashes)
    {
      if b[j] == QUOTE && forall k :: j < k <= j + hashes && k < |b| ==> b[k] == HASH {
        return Some(Min(j + 1 + hashes, |b|));
      }
      j := j + 1;
    }
    r := Some(|b|);
  }

  method SkipCharLiteral(b: bytes, i: nat) returns (r: Option<nat>)
    requires i < |b| && b[i] == APOSTROPHE
    ensures r == OpaqueEnd(b, i)
  {
    if i + 1 < |b| && b[i + 1] == BACKSLASH {
      var j := i + 3;
      while j < |b| && b[j] != APOSTROPHE
        invariant i + 3 <= j
        invariant ApostropheFrom(b, i + 3) == ApostropheFrom(b, j)
      {
        j := j + 1;
      }
      return Some(Min(j + 1, |b|));
    }
    if i + 2 < |b| && b[i + 2] == APOSTROPHE {
      return Some(i + 3);
    }
    r := None;
  }

  /** The lexer's entry point; it is told where to start but never where a region ends. */
  method SkipOpaque(b: bytes, i: nat) returns (r: Option<nat>)
    requires i < |b|
    ensures r == OpaqueEnd(b, i)
    ensures forall e: nat :: r == Some(e) <==> Opaque(b, i, e)
  {
    forall e: nat ensures OpaqueEnd(b, i) == Some(e) <==> Opaque(b, i, e) {
      OpaqueIff(b, i, e);
    }
    hide Opaque;
    if Pair(b, i, SLASH, SLASH) {
      var j := SkipLineComment(b, i);
      return Some(j);
    }
    if Pair(b, i, SLASH, STAR) {
      var j := SkipBlockComment(b, i + 2);
      return Some(j);
    }
    if b[i] == QUOTE {
      var j := SkipString(b, i + 1);
      return Some(j);
    }
    if b[i] == LOWER_R && !IdentBefore(b, i) {
      r := SkipRawString(b, i);
      return;
    }
    if b[i] == APOSTROPHE {
      r := SkipCharLiteral(b, i);
      return;
    }
    r := None;
  }

  // ----- literals and comments, said over characters -----

  predicate At(b: bytes, i: nat, c: char) {
    i < |b| && b[i] == c as int
  }

  /** The bytes of `text` written in ASCII. */
  predicate Spells(b: bytes, text: string) {
    |b| == |text| && forall k :: 0 <= k < |b| ==> b[k] == text[k] as int
  }

  /** The character classes, by name. */
  lemma ByteClasses(c: byte)
    ensures var ch := c as char;
            && (IsIdent(c) <==> 'a' <= ch <= 'z' || 'A' <= ch <= 'Z' || '0' <= ch <= '9' || ch == '_')
            && (IsOpener(c) <==> ch == '(' || ch == '[' || ch == '{')
            && (IsCloser(c) <==> ch == ')' || ch == ']' || ch == '}')
  {
  }

  /** `r` is the first `c` from `i` on, or the end of the input. */
  ghost predicate FirstFrom(b: bytes, i: nat, c: char, r: nat) {
    && (forall k: nat :: i <= k < r ==> !At(b, k, c))
    && ((i <= r && At(b, r, c)) || (r == |b| && forall k: nat :: i <= k ==> !At(b, k, c)))
  }

  /** A comment one level deep at `i` ends at `r`: where its nesting first returns to zero, or with the input. */
  ghost predicate EndsBlock(b: bytes, i: nat, r: nat) {
    && Marks(b, i, r)
    && (r == |b| || 1 + Nesting(b, i, r) == 0)
    && forall k: nat :: k < r && Marks(b, i, k) ==> 1 + Nesting(b, i, k) > 0
  }

  /** A mark that opens a comment, and one that closes a comment. */
  predicate OpensAt(b: bytes, k: nat) {
    At(b, k, '/') && At(b, k + 1, '*')
  }

  predicate ClosesAt(b: bytes, k: nat) {
    At(b, k, '*') && At(b, k + 1, '/')
  }

  ghost function OpenMarks(b: bytes, i: nat, r: nat): set<nat> {
    set k: nat | i <= k < r && Marks(b, i, k) && OpensAt(b, k)
  }

  ghost function CloseMarks(b: bytes, i: nat, r: nat): set<nat> {
    set k: nat | i <= k < r && Marks(b, i, k) && ClosesAt(b, k)
  }

  /** The nesting is the number of opening marks less the number of closing ones. */
  lemma {:induction false} NestingIsCount(b: bytes, i: nat, r: nat)
    requires Marks(b, i, r)
    ensures Nesting(b, i, r) == |OpenMarks(b, i, r)| - |CloseMarks(b, i, r)|
    decreases r - i
  {
    if i < r {
      var n := Hop(b, i);
      NestingIsCount(b, n, r);
      MarksStep(b, i, r, n);
      HopIs(b, i);
      hide OpenMarks, CloseMarks, OpensAt, ClosesAt, Marks, Hop;
    }
  }

  /** A mark is read as a whole, anything else byte by byte. */
  lemma HopIs(b: bytes, i: nat)
    ensures Hop(b, i) == if OpensAt(b, i) || ClosesAt(b, i) then i + 2 else i + 1
    ensures Pair(b, i, SLASH, STAR) <==> OpensAt(b, i)
    ensures Pair(b, i, STAR, SLASH) <==> ClosesAt(b, i)
    ensures !(OpensAt(b, i) && ClosesAt(b, i))
  {
  }

  lemma MarksStep(b: bytes, i: nat, r: nat, n: nat)
    requires i < r && Marks(b, i, r) && n == Hop(b, i)
    ensures OpenMarks(b, i, r) == (if OpensAt(b, i) then {i} else {}) + OpenMarks(b, n, r) && i !in OpenMarks(b, n, r)
    ensures CloseMarks(b, i, r) == (if ClosesAt(b, i) then {i} else {}) + CloseMarks(b, n, r)
    ensures i !in CloseMarks(b, n, r)
  {
    forall k: nat | i < k < r ensures Marks(b, i, k) <==> n <= k && Marks(b, n, k) {
      if Marks(b, i, k) {
        MarksForward(b, n, k);
      } else if n <= k {
        MarksForward(b, n, r);
      }
    }
    assert Marks(b, i, i);
    hide Marks, Hop, OpensAt, ClosesAt;
  }

  lemma {:induction false} MarksForward(b: bytes, i: nat, j: nat)
    requires Marks(b, i, j)
    ensures i <= j
    decreases j - i
  {
    if i != j {
      MarksForward(b, Hop(b, i), j);
    }
  }

  /** A quote with `hashes` hash signs behind it, as far as the input goes. */
  predicate RawCloseAt(b: bytes, k: nat, hashes: nat) {
    At(b, k, '"') && forall m: nat :: k < m <= k + hashes && m < |b| ==> At(b, m, '#')
  }

  /** A raw string whose contents start at `i` ends at `r`. */
  ghost predicate EndsRaw(b: bytes, i: nat, hashes: nat, r: nat) {
    || (exists c: nat ::
          && i <= c && RawCloseAt(b, c, hashes) && r == Min(c + 1 + hashes, |b|)
          && forall k: nat :: i <= k < c ==> !RawCloseAt(b, k, hashes))
    || (r == |b| && forall k: nat :: i <= k ==> !RawCloseAt(b, k, hashes))
  }

  ghost predicate RawOpens(b: bytes, i: nat, hashes: nat) {
    && At(b, i, 'r') && !(i > 0 && i <= |b| && IsIdent(b[i - 1]))
    && (forall k: nat :: i < k <= i + hashes ==> At(b, k, '#'))
    && At(b, i + 1 + hashes, '"')
  }

  /** An escaped character literal ends past the first apostrophe from `from` on, or with the input. */
  ghost predicate EndsEscapedChar(b: bytes, from: nat, r: nat) {
    exists a: nat :: FirstFrom(b, from, '\'', a) && r == Min(a + 1, |b|)
  }

  /** What starts at `i` is a comment or literal, and ends before `r`. */
  ghost predicate Opaque(b: bytes, i: nat, r: nat)
    requires i < |b|
  {
    || (At(b, i, '/') && At(b, i + 1, '/') && FirstFrom(b, i, '\n', r))
    || (At(b, i, '/') && At(b, i + 1, '*') && EndsBlock(b, i + 2, r))
    || (At(b, i, '"') && EndsString(b, i + 1, r))
    || RawLiteral(b, i, r)
    || (At(b, i, '\'') && At(b, i + 1, '\\')
        && EndsEscapedChar(b, i + 3, r))
    || (At(b, i, '\'') && !At(b, i + 1, '\\') && At(b, i + 2, '\'') && r == i + 3)
  }

  /** The lexer finds exactly the comments and literals, and where they end. */
  lemma OpaqueIff(b: bytes, i: nat, r: nat)
    requires i < |b|
    ensures OpaqueEnd(b, i) == Some(r) <==> Opaque(b, i, r)
  {
    if Pair(b, i, SLASH, SLASH) {
      LineIff(b, i, r);
    } else if Pair(b, i, SLASH, STAR) {
      BlockIff(b, i + 2, r);
    } else if b[i] == QUOTE {
      StringIff(b, i + 1, r);
    } else if b[i] == LOWER_R {
      RawIff(b, i, r);
    } else if b[i] == APOSTROPHE {
      CharIff(b, i, r);
    }
  }

  lemma LineIff(b: bytes, i: nat, r: nat)
    requires i < |b| && b[i] != NEWLINE
    ensures LineEnd(b, i + 1) == r <==> FirstFrom(b, i, '\n', r)
  {
    LineEndIsFirstNewline(b, i + 1);
    var e := LineEnd(b, i + 1);
    assert FirstFrom(b, i, '\n', e);
    if FirstFrom(b, i, '\n', r) {
      FirstIsUnique(b, i, '\n', r, e);
    }
  }

  lemma BlockIff(b: bytes, i: nat, r: nat)
    requires i <= |b|
    ensures BlockEnd(b, i, 1) == r <==> EndsBlock(b, i, r)
  {
    BlockEndIsFirstLevel(b, i, 1);
    var e := BlockEnd(b, i, 1);
    if EndsBlock(b, i, r) && r != e {
      if r > e {
        assert Marks(b, i, e) && 1 + Nesting(b, i, e) > 0;
        MarksBound(b, i, r);
      }
      assert false;
    }
  }

  lemma {:induction false} MarksBound(b: bytes, i: nat, r: nat)
    requires Marks(b, i, r) && i <= |b|
    ensures i <= r <= |b|
    decreases r - i
  {
    if i != r {
      MarksBound(b, Hop(b, i), r);
    }
  }

  lemma StringIff(b: bytes, i: nat, r: nat)
    requires i <= |b|
    ensures StringEnd(b, i) == r <==> EndsString(b, i, r)
  {
    StringEndIsFirstUnescaped(b, i);
  }

  lemma {:induction false} HashesIff(b: bytes, i: nat)
    requires i <= |b|
    ensures var r := HashesEnd(b, i);
            !At(b, r, '#') && forall k: nat :: i <= k < r ==> At(b, k, '#')
    decreases |b| - i
  {
    if i < |b| && b[i] == HASH {
      HashesIff(b, i + 1);
    }
  }

  /** Past the raw string whose contents start at `i`. */
  function RawStop(b: bytes, i: nat, hashes: nat): nat
    requires i <= |b|
  {
    var close := RawClose(b, i, hashes);
    if close < |b| then Min(close + 1 + hashes, |b|) else |b|
  }

  /** A raw string literal starts at `i` and ends before `r`. */
  ghost predicate RawLiteral(b: bytes, i: nat, r: nat) {
    exists hashes: nat :: RawOpens(b, i, hashes) && EndsRaw(b, i + 2 + hashes, hashes, r)
  }

  lemma RawIff(b: bytes, i: nat, r: nat)
    requires i < |b| && b[i] == LOWER_R
    ensures OpaqueEnd(b, i) == Some(r) <==> RawLiteral(b, i, r)
  {
    hide OpaqueEnd, RawLiteral, RawOpens, EndsRaw;
    if RawLiteral(b, i, r) {
      LiteralIsFound(b, i, r);
    }
    if OpaqueEnd(b, i) == Some(r) {
      FoundIsLiteral(b, i, r);
    }
  }

  lemma FoundIsLiteral(b: bytes, i: nat, r: nat)
    requires i < |b| && b[i] == LOWER_R && OpaqueEnd(b, i) == Some(r)
    ensures RawLiteral(b, i, r)
  {
    RawOpaque(b, i);
    hide OpaqueEnd, HashesEnd, RawStop;
    var j := HashesEnd(b, i + 1);
    OpensHere(b, i, j);
    LiteralFrom(b, i, j - (i + 1), j + 1, r);
  }

  lemma LiteralFrom(b: bytes, i: nat, hashes: nat, from: nat, r: nat)
    requires RawOpens(b, i, hashes) && from == i + 2 + hashes <= |b| && r == RawStop(b, from, hashes)
    ensures RawLiteral(b, i, r)
  {
    RawEndIff(b, from, hashes, r);
    hide RawStop, RawOpens, RawCloseAt;
  }

  lemma LiteralIsFound(b: bytes, i: nat, r: nat)
    requires i < |b| && b[i] == LOWER_R && RawLiteral(b, i, r)
    ensures OpaqueEnd(b, i) == Some(r)
  {
    var hashes: nat :| RawOpens(b, i, hashes) && EndsRaw(b, i + 2 + hashes, hashes, r);
    OpenedAt(b, i, hashes);
    RawEndIff(b, i + 2 + hashes, hashes, r);
    RawOpaque(b, i);
  }

  /** Where the opening hash signs of a raw string end. */
  lemma OpenedAt(b: bytes, i: nat, hashes: nat)
    requires RawOpens(b, i, hashes)
    ensures HashesEnd(b, i + 1) == i + 1 + hashes && i + 1 + hashes < |b| && b[i + 1 + hashes] == QUOTE
  {
    HashesIff(b, i + 1);
    hide HashesEnd;
    HashCountIsUnique(b, i, hashes, HashesEnd(b, i + 1) - (i + 1));
  }

  lemma OpensHere(b: bytes, i: nat, j: nat)
    requires i < |b| && b[i] == LOWER_R && j == HashesEnd(b, i + 1) && j < |b| && b[j] == QUOTE && !IdentBefore(b, i)
    ensures RawOpens(b, i, j - (i + 1))
  {
    HashesIff(b, i + 1);
    hide HashesEnd, IdentBefore;
  }

  lemma RawOpaque(b: bytes, i: nat)
    requires i < |b| && b[i] == LOWER_R
    ensures var j := HashesEnd(b, i + 1);
            OpaqueEnd(b, i) ==
            if !IdentBefore(b, i) && j < |b| && b[j] == QUOTE then Some(RawStop(b, j + 1, j - (i + 1))) else None
  {
  }

  lemma HashCountIsUnique(b: bytes, i: nat, n: nat, h: nat)
    requires RawOpens(b, i, n) && !At(b, i + 1 + h, '#') && forall k: nat :: i + 1 <= k < i + 1 + h ==> At(b, k, '#')
    ensures n == h
  {
    var k := i + 1 + n;
    assert !At(b, k, '#');
  }

  lemma RawEndIff(b: bytes, i: nat, hashes: nat, r: nat)
    requires i <= |b|
    ensures r == RawStop(b, i, hashes) <==> EndsRaw(b, i, hashes, r)
  {
    RawCloseIsFirst(b, i, hashes);
    forall k: nat ensures RawCloseAt(b, k, hashes) <==> RawCloses(b, k, hashes) {
      SameClose(b, k, hashes);
    }
    hide RawCloses, RawCloseAt;
  }

  lemma SameClose(b: bytes, k: nat, hashes: nat)
    ensures RawCloseAt(b, k, hashes) <==> RawCloses(b, k, hashes)
  {
    if RawCloseAt(b, k, hashes) {
      forall m | k < m <= k + hashes && m < |b| ensures b[m] == HASH {
        assert At(b, m, '#');
      }
    }
  }

  lemma {:induction false} ApostropheIff(b: bytes, i: nat)
    requires i <= |b|
    ensures FirstFrom(b, i, '\'', ApostropheFrom(b, i))
    decreases |b| - i
  {
    if i < |b| && b[i] != APOSTROPHE {
      ApostropheIff(b, i + 1);
    }
  }

  lemma CharIff(b: bytes, i: nat, r: nat)
    requires i < |b| && b[i] == APOSTROPHE
    ensures OpaqueEnd(b, i) == Some(r) <==>
            || (At(b, i + 1, '\\') && EndsEscapedChar(b, i + 3, r))
            || (!At(b, i + 1, '\\') && At(b, i + 2, '\'') && r == i + 3)
  {
    if At(b, i + 1, '\\') {
      EscapedCharIff(b, i + 3, r);
    }
  }

  lemma EscapedCharIff(b: bytes, from: nat, r: nat)
    ensures r == Min(ApostropheFrom(b, from) + 1, |b|) <==> EndsEscapedChar(b, from, r)
  {
    if from <= |b| {
      ApostropheIff(b, from);
      var e := ApostropheFrom(b, from);
      forall a: nat | FirstFrom(b, from, '\'', a) ensures a == e {
        FirstIsUnique(b, from, '\'', a, e);
      }
    } else {
      assert FirstFrom(b, from, '\'', |b|);
    }
  }

  lemma FirstIsUnique(b: bytes, i: nat, c: char, r: nat, t: nat)
    requires i <= |b| && FirstFrom(b, i, c, r) && FirstFrom(b, i, c, t)
    ensures r == t
  {
    assert r < |b| ==> At(b, r, c);
    assert t < |b| ==> At(b, t, c);
  }

  // ----- the tokenization -----

  /** A byte that starts no literal or comment; only meaningful at a token boundary. */
  predicate Code(b: bytes, i: nat) {
    i < |b| && OpaqueEnd(b, i).None?
  }

  /** The boundary after the token at `i`. */
  function Next(b: bytes, i: nat): (r: nat)
    requires i < |b|
    ensures i < r <= |b|
  {
    match OpaqueEnd(b, i)
    case Some(r) => r
    case None => i + 1
  }

  /** Tokenizing from `i` arrives at `j`. A token boundary is what tokenizing from 0 arrives at. */
  predicate Reach(b: bytes, i: nat, j: nat)
    decreases j - i
  {
    i == j || (i < j && i < |b| && Reach(b, Next(b, i), j))
  }

  lemma {:induction false} ReachBounds(b: bytes, i: nat, j: nat)
    requires Reach(b, i, j)
    ensures i <= j
    ensures i <= |b| ==> j <= |b|
    decreases j - i
  {
    if i != j {
      ReachBounds(b, Next(b, i), j);
    }
  }

  lemma {:induction false} ReachTrans(b: bytes, i: nat, j: nat, k: nat)
    requires Reach(b, i, j) && Reach(b, j, k)
    ensures Reach(b, i, k)
    decreases j - i
  {
    if i != j {
      ReachBounds(b, i, j);
      ReachBounds(b, j, k);
      ReachTrans(b, Next(b, i), j, k);
    }
  }

  /** Two boundaries of one tokenization: the later is reached from the earlier. */
  lemma {:induction false} ReachBetween(b: bytes, i: nat, j: nat, k: nat)
    requires Reach(b, i, j) && Reach(b, i, k) && j <= k
    ensures Reach(b, j, k)
    decreases j - i
  {
    if i != j {
      ReachBounds(b, i, j);
      ReachBetween(b, Next(b, i), j, k);
    }
  }

  lemma ReachStep(b: bytes, i: nat, j: nat)
    requires Reach(b, i, j) && j < |b|
    ensures Reach(b, i, Next(b, j))
  {
    assert Reach(b, j, Next(b, j));
    ReachTrans(b, i, j, Next(b, j));
  }

  /** The walk never jumps over a boundary: this is why no inner walk overshoots its region. */
  lemma NoOvershoot(b: bytes, i: nat, e: nat)
    requires Reach(b, i, e) && i < e
    ensures i < |b| && Next(b, i) <= e && Reach(b, Next(b, i), e)
  {
    ReachBounds(b, Next(b, i), e);
  }
}
