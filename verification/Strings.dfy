/** String operations the verifier's code takes from its standard library. */
module Strings {
  import opened Common

  /** The pieces of `s` between occurrences of `c`; always at least one piece. */
  function Split(s: string, c: char): (parts: seq<string>)
    ensures |parts| >= 1
    ensures forall p :: p in parts ==> c !in p
  {
    if s == "" then [""]
    else if s[0] == c then [""] + Split(s[1..], c)
    else
      var rest := Split(s[1..], c);
      [[s[0]] + rest[0]] + rest[1..]
  }

  function Join(parts: seq<string>, c: char): string
    requires |parts| >= 1
  {
    if |parts| == 1 then parts[0] else parts[0] + [c] + Join(parts[1..], c)
  }

  lemma {:induction false} JoinSplit(s: string, c: char)
    ensures Join(Split(s, c), c) == s
  {
    if s != "" {
      JoinSplit(s[1..], c);
      var rest := Split(s[1..], c);
      if s[0] == c {
        assert ([""] + rest)[1..] == rest;
      } else {
        var parts := Split(s, c);
        assert parts[1..] == rest[1..];
        assert parts[0] == [s[0]] + rest[0];
      }
      assert s == [s[0]] + s[1..];
    }
  }

  lemma {:induction false} SplitJoin(parts: seq<string>, c: char)
    requires |parts| >= 1
    requires forall p :: p in parts ==> c !in p
    ensures Split(Join(parts, c), c) == parts
  {
    if |parts| == 1 {
      SplitNone(parts[0], c);
    } else {
      SplitJoin(parts[1..], c);
      SplitFirst(parts[0], c, Join(parts[1..], c));
    }
  }

  lemma {:induction false} SplitNone(s: string, c: char)
    requires c !in s
    ensures Split(s, c) == [s]
  {
    if s != "" {
      SplitNone(s[1..], c);
      assert s == [s[0]] + s[1..];
    }
  }

  /** Splitting past a separator-free head. */
  lemma {:induction false} SplitFirst(head: string, c: char, tail: string)
    requires c !in head
    ensures Split(head + [c] + tail, c) == [head] + Split(tail, c)
  {
    var s := head + [c] + tail;
    if head == "" {
      assert s[1..] == tail;
    } else {
      SplitFirst(head[1..], c, tail);
      assert s[1..] == head[1..] + [c] + tail;
      assert head == [head[0]] + head[1..];
    }
  }

  lemma {:induction false} SplitLast(head: string, c: char, tail: string)
    requires c !in tail
    ensures Split(head + [c] + tail, c) == Split(head, c) + [tail]
    decreases |head|
  {
    var s := head + [c] + tail;
    if head == "" {
      assert s[1..] == tail;
      SplitNone(tail, c);
    } else {
      SplitLast(head[1..], c, tail);
      assert s[1..] == head[1..] + [c] + tail;
      if head[0] != c {
        var rest := Split(head[1..], c);
        assert (rest + [tail])[1..] == rest[1..] + [tail];
      }
    }
  }

  function ToUpper(s: string): (u: string)
    ensures |u| == |s|
  {
    if s == "" then ""
    else [if 'a' <= s[0] <= 'z' then s[0] - 'a' + 'A' else s[0]] + ToUpper(s[1..])
  }

  const LOWER := "abcdefghijklmnopqrstuvwxyz"
  const UPPER := "ABCDEFGHIJKLMNOPQRSTUVWXYZ"

  /** `u` is `s` with every ASCII lower-case letter replaced by its capital, and nothing else. */
  ghost predicate Uppercased(s: string, u: string) {
    && |u| == |s|
    && forall k :: 0 <= k < |s| ==>
         (exists n :: 0 <= n < 26 && s[k] == LOWER[n] && u[k] == UPPER[n]) || (s[k] !in LOWER && u[k] == s[k])
  }

  lemma {:induction false} ToUpperIsUppercased(s: string)
    ensures Uppercased(s, ToUpper(s))
  {
    if s != "" {
      ToUpperIsUppercased(s[1..]);
      Letter(s[0]);
      var u, rest := ToUpper(s), ToUpper(s[1..]);
      forall k | 0 <= k < |s|
        ensures (exists n :: 0 <= n < 26 && s[k] == LOWER[n] && u[k] == UPPER[n]) || (s[k] !in LOWER && u[k] == s[k])
      {
        if k > 0 {
          assert s[k] == s[1..][k - 1] && u[k] == rest[k - 1];
        }
      }
    }
  }

  /** There is one such string, and `ToUpper` yields it. */
  lemma UpperIff(s: string, u: string)
    ensures ToUpper(s) == u <==> Uppercased(s, u)
  {
    ToUpperIsUppercased(s);
    if Uppercased(s, u) {
      var t := ToUpper(s);
      forall k | 0 <= k < |s| ensures u[k] == t[k] {
        OneCapital(s[k], u[k], t[k]);
      }
    }
  }

  lemma OneCapital(c: char, x: char, y: char)
    requires (exists n :: 0 <= n < 26 && c == LOWER[n] && x == UPPER[n]) || (c !in LOWER && x == c)
    requires (exists n :: 0 <= n < 26 && c == LOWER[n] && y == UPPER[n]) || (c !in LOWER && y == c)
    ensures x == y
  {
    if m, n :| 0 <= m < 26 && c == LOWER[m] && x == UPPER[m] && 0 <= n < 26 && c == LOWER[n] && y == UPPER[n] {
      LetterAt(m);
      LetterAt(n);
    }
  }

  lemma LetterAt(n: nat)
    requires n < 26
    ensures LOWER[n] == 'a' + n as char
  {
  }

  /** The letters and their capitals stand in the same order. */
  lemma Letter(c: char)
    ensures 'a' <= c <= 'z' ==> exists n :: 0 <= n < 26 && c == LOWER[n] && c - 'a' + 'A' == UPPER[n]
    ensures !('a' <= c <= 'z') ==> c !in LOWER
  {
    if 'a' <= c <= 'z' {
      var n := (c - 'a') as nat;
      assert LOWER[n] == c && UPPER[n] == c - 'a' + 'A';
    }
  }

  predicate IsDigit(c: char) {
    '0' <= c <= '9'
  }

  function DecimalValue(digits: string): nat
    requires forall c :: c in digits ==> IsDigit(c)
  {
    if digits == "" then 0
    else
      var last := digits[|digits| - 1];
      assert IsDigit(last);
      10 * DecimalValue(digits[..|digits| - 1]) + (last - '0') as nat
  }

  const U64_LIMIT: nat := 0x1_0000_0000_0000_0000

  /** An unsigned 64-bit parse: an optional plus sign, at least one digit, no overflow. */
  function ParseU64(s: string): Option<nat> {
    var digits := if |s| > 1 && s[0] == '+' then s[1..] else s;
    if digits == "" || !(forall c :: c in digits ==> IsDigit(c)) then None
    else if DecimalValue(digits) < U64_LIMIT then Some(DecimalValue(digits))
    else None
  }

  /** A number in decimal. */
  function Decimal(n: nat): (s: string)
    ensures s != "" && forall c :: c in s ==> IsDigit(c)
  {
    if n < 10 then ["0123456789"[n]] else Decimal(n / 10) + ["0123456789"[n % 10]]
  }

  function Zeros(k: nat): (s: string)
    ensures |s| == k && forall c :: c in s ==> c == '0'
  {
    seq(k, _ => '0')
  }

  /** `s` writes `n` in decimal, perhaps with a plus sign and leading zeros. */
  ghost predicate Numeral(s: string, n: nat) {
    exists sign: string, k: nat :: (sign == "" || sign == "+") && s == sign + Zeros(k) + Decimal(n)
  }

  lemma OneDigit(d: nat)
    requires d < 10
    ensures IsDigit("0123456789"[d]) && ("0123456789"[d] - '0') as nat == d && Decimal(d) == ["0123456789"[d]]
  {
  }

  lemma ValueAppend(s: string, c: char)
    requires IsDigit(c) && forall x :: x in s ==> IsDigit(x)
    ensures forall x :: x in s + [c] ==> IsDigit(x)
    ensures DecimalValue(s + [c]) == 10 * DecimalValue(s) + (c - '0') as nat
  {
    assert (s + [c])[..|s|] == s;
  }

  lemma DecimalAppend(v: nat, d: nat)
    requires d < 10 && v > 0
    ensures Decimal(10 * v + d) == Decimal(v) + ["0123456789"[d]]
  {
  }

  lemma {:induction false} ZerosHaveNoValue(k: nat)
    ensures DecimalValue(Zeros(k)) == 0
  {
    if k > 0 {
      ZerosHaveNoValue(k - 1);
      ValueAppend(Zeros(k - 1), '0');
      assert Zeros(k) == Zeros(k - 1) + ['0'];
    }
  }

  lemma {:induction false} DecimalHasValue(k: nat, n: nat)
    ensures (forall c :: c in Zeros(k) + Decimal(n) ==> IsDigit(c)) && DecimalValue(Zeros(k) + Decimal(n)) == n
    decreases n
  {
    var v, d := n / 10, n % 10;
    OneDigit(d);
    if v > 0 {
      DecimalHasValue(k, v);
      DecimalAppend(v, d);
      hide DecimalValue, Decimal, Zeros;
      ValueAppend(Zeros(k) + Decimal(v), "0123456789"[d]);
      assert Zeros(k) + Decimal(n) == Zeros(k) + Decimal(v) + ["0123456789"[d]];
    } else {
      ZerosHaveNoValue(k);
      hide DecimalValue, Decimal, Zeros;
      ValueAppend(Zeros(k), "0123456789"[d]);
    }
  }

  lemma {:induction false} DigitsAreNumeral(digits: string) returns (k: nat)
    requires digits != "" && forall c :: c in digits ==> IsDigit(c)
    ensures digits == Zeros(k) + Decimal(DecimalValue(digits))
  {
    hide DecimalValue, Decimal, Zeros;
    var init, last := digits[..|digits| - 1], digits[|digits| - 1];
    assert digits == init + [last] && IsDigit(last);
    var d := (last - '0') as nat;
    ValueAppend(init, last);
    OneDigit(d);
    DigitIs(last);
    if init == "" {
      k := 0;
      NoDigits();
    } else {
      var j := DigitsAreNumeral(init);
      k := AppendDigit(j, DecimalValue(init), d);
    }
  }

  lemma DigitIs(c: char)
    requires IsDigit(c)
    ensures "0123456789"[(c - '0') as nat] == c
  {
  }

  lemma NoDigits()
    ensures DecimalValue("") == 0 && Zeros(0) == ""
  {
  }

  lemma AppendDigit(j: nat, v: nat, d: nat) returns (k: nat)
    requires d < 10
    ensures Zeros(j) + Decimal(v) + ["0123456789"[d]] == Zeros(k) + Decimal(10 * v + d)
  {
    OneDigit(d);
    if v == 0 {
      k := j + 1;
      assert Decimal(0) == "0" && Zeros(j) + "0" == Zeros(j + 1);
    } else {
      k := j;
      DecimalAppend(v, d);
      hide Decimal, Zeros;
      assert Zeros(j) + Decimal(v) + ["0123456789"[d]] == Zeros(j) + (Decimal(v) + ["0123456789"[d]]);
    }
  }

  /** The parse accepts exactly the numerals of 64-bit numbers, and yields the number written. */
  lemma ParseIff(s: string, n: nat)
    ensures ParseU64(s) == Some(n) <==> Numeral(s, n) && n < 18_446_744_073_709_551_616
  {
    if ParseU64(s) == Some(n) {
      ParsedIsNumeral(s, n);
    }
    if Numeral(s, n) && n < U64_LIMIT {
      NumeralIsParsed(s, n);
    }
  }

  lemma ParsedIsNumeral(s: string, n: nat)
    requires ParseU64(s) == Some(n)
    ensures Numeral(s, n)
  {
    hide Decimal, DecimalValue, Zeros;
    var signed := |s| > 1 && s[0] == '+';
    var digits := if signed then s[1..] else s;
    var sign := if signed then "+" else "";
    var k := DigitsAreNumeral(digits);
    assert s == sign + digits;
    assert sign + digits == sign + Zeros(k) + Decimal(n);
  }

  lemma NumeralIsParsed(s: string, n: nat)
    requires Numeral(s, n) && n < U64_LIMIT
    ensures ParseU64(s) == Some(n)
  {
    hide Decimal, DecimalValue, Zeros;
    var sign: string, k: nat :| (sign == "" || sign == "+") && s == sign + Zeros(k) + Decimal(n);
    DecimalHasValue(k, n);
    var digits := Zeros(k) + Decimal(n);
    assert s == sign + digits;
    if sign == "+" {
      assert s[1..] == digits;
    } else {
      assert s == digits && s[0] in digits && IsDigit(s[0]);
    }
  }

  /** `part` holds no `c` and stands in `s` between two of them, or an end and one. */
  ghost predicate SegmentBetween(s: string, c: char, before: string, part: string, after: string) {
    && s == before + part + after && c !in part
    && (before == "" || before[|before| - 1] == c)
    && (after == "" || after[0] == c)
  }

  ghost predicate Segment(s: string, c: char, part: string) {
    exists before: string, after: string :: SegmentBetween(s, c, before, part, after)
  }

  lemma {:induction false} JoinAppend(xs: seq<string>, ys: seq<string>, c: char)
    requires xs != [] && ys != []
    ensures Join(xs + ys, c) == Join(xs, c) + [c] + Join(ys, c)
  {
    if |xs| == 1 {
      assert (xs + ys)[1..] == ys;
    } else {
      JoinAppend(xs[1..], ys, c);
      assert (xs + ys)[1..] == xs[1..] + ys;
    }
  }

  /** Splitting at a separator splits both sides. */
  lemma SplitBoth(head: string, c: char, tail: string)
    ensures Split(head + [c] + tail, c) == Split(head, c) + Split(tail, c)
  {
    hide Split, Join;
    JoinSplit(head, c);
    JoinSplit(tail, c);
    JoinAppend(Split(head, c), Split(tail, c), c);
    SplitJoin(Split(head, c) + Split(tail, c), c);
  }

  /** The pieces are exactly the segments. */
  lemma SplitIffSegment(s: string, c: char, part: string)
    ensures part in Split(s, c) <==> Segment(s, c, part)
  {
    if part in Split(s, c) {
      PieceIsSegment(s, c, part);
    }
    if Segment(s, c, part) {
      SegmentIsPiece(s, c, part);
    }
  }

  lemma {:induction false} PieceIsSegment(s: string, c: char, part: string)
    requires part in Split(s, c)
    ensures Segment(s, c, part)
    decreases |s|
  {
    var first, rest := Split(s, c)[0], Split(s, c)[1..];
    JoinSplit(s, c);
    hide Split;
    if rest == [] {
      assert SegmentBetween(s, c, "", part, "");
    } else {
      var tail := Join(rest, c);
      assert s == first + [c] + tail;
      hide Join;
      if part == first {
        assert s == "" + part + ([c] + tail);
        assert SegmentBetween(s, c, "", part, [c] + tail);
      } else {
        SplitJoin(rest, c);
        PieceIsSegment(tail, c, part);
        SegmentOfTail(first, c, tail, part);
      }
    }
  }

  lemma SegmentOfTail(first: string, c: char, tail: string, part: string)
    requires Segment(tail, c, part)
    ensures Segment(first + [c] + tail, c, part)
  {
    var before, after :| SegmentBetween(tail, c, before, part, after);
    var more := first + [c] + before;
    assert more[|more| - 1] == c;
    assert first + [c] + tail == more + part + after;
    assert SegmentBetween(first + [c] + tail, c, more, part, after);
  }

  lemma SegmentIsPiece(s: string, c: char, part: string)
    requires Segment(s, c, part)
    ensures part in Split(s, c)
  {
    hide Split;
    var before, after :| SegmentBetween(s, c, before, part, after);
    var tail := part + after;
    LeadingPiece(c, part, after);
    if before != "" {
      var init := before[..|before| - 1];
      SplitBoth(init, c, tail);
      assert s == init + [c] + tail;
    } else {
      assert s == tail;
    }
  }

  lemma LeadingPiece(c: char, part: string, after: string)
    requires c !in part && (after == "" || after[0] == c)
    ensures part in Split(part + after, c)
  {
    SplitNone(part, c);
    hide Split;
    if after != "" {
      SplitBoth(part, c, after[1..]);
      assert part + after == part + [c] + after[1..];
    } else {
      assert part + after == part;
    }
  }
}
