/** How the scanner reads one argument of a tracing macro. */
module FieldArgs {
  import opened Common
  import opened Lexer
  import opened Brackets
  import opened Marker

  const OPEN_BRACE: byte := 123
  const PERCENT: byte := 37
  const QUESTION: byte := 63
  const EQUALS: byte := 61
  const GREATER: byte := 62

  /** The bytes of `ingest.url`. */
  const VALUE_NEEDLE: bytes := [105, 110, 103, 101, 115, 116, 46, 117, 114, 108]

  predicate IsSpace(c: byte) {
    c == 32 || c == 9 || c == 10 || c == 12 || c == 13
  }

  predicate StartsComment(b: bytes, i: nat, end: nat)
    requires end <= |b|
  {
    i + 1 < end && b[i] == SLASH && (b[i + 1] == SLASH || b[i + 1] == STAR)
  }

  /** Past the white space and comments at `i`. */
  function TriviaEnd(b: bytes, i: nat, end: nat): (r: nat)
    requires end <= |b|
    ensures i <= r && (i <= |b| ==> r <= |b|)
    ensures r < end ==> !IsSpace(b[r])
    decreases if i <= |b| then |b| - i else 0
  {
    if i >= end then i
    else if IsSpace(b[i]) then TriviaEnd(b, i + 1, end)
    else if StartsComment(b, i, end) then TriviaEnd(b, Next(b, i), end)
    else i
  }

  method SkipTrivia(b: bytes, i: nat, end: nat) returns (r: nat)
    requires end <= |b|
    ensures r == TriviaEnd(b, i, end)
  {
    r := i;
    while r < end
      invariant i <= r && TriviaEnd(b, r, end) == TriviaEnd(b, i, end)
      decreases |b| - r
    {
      if IsSpace(b[r]) {
        r := r + 1;
      } else if StartsComment(b, r, end) {
        var next := SkipOpaque(b, r);
        r := if next.Some? then next.value else r + 1;
      } else {
        break;
      }
    }
  }

  /** Inside an aligned range, skipping trivia stays aligned, stays inside, and crosses no bracket or name. */
  lemma {:induction false} TriviaAligned(b: bytes, i: nat, end: nat)
    requires end <= |b| && Reach(b, i, end)
    ensures var r := TriviaEnd(b, i, end);
            && r <= end && Reach(b, i, r) && Reach(b, r, end)
            && Net(b, i, r) == 0
            && forall k :: i <= k < r && Reach(b, i, k) ==> IsSpace(b[k]) || b[k] == SLASH
    decreases end - i
  {
    ReachBounds(b, i, end);
    var r := TriviaEnd(b, i, end);
    if i < end && (IsSpace(b[i]) || StartsComment(b, i, end)) {
      NoOvershoot(b, i, end);
      var n := Next(b, i);
      TriviaAligned(b, n, end);
      forall k | i <= k < r && Reach(b, i, k) ensures IsSpace(b[k]) || b[k] == SLASH {
        if k > i {
          NoOvershoot(b, i, k);
        }
      }
    }
  }

  // ----- names -----

  predicate IsNameByte(c: byte) {
    IsIdent(c) || c == DOT
  }

  /** Past the identifier bytes at `i`; dots are included when `dotted`. */
  function NameEnd(b: bytes, i: nat, end: nat, dotted: bool): (r: nat)
    requires end <= |b|
    ensures i <= r && (i <= end ==> r <= end)
    ensures i < r ==> r <= end
    ensures forall k :: i <= k < r ==> IsIdent(b[k]) || (dotted && b[k] == DOT)
    ensures r < end ==> !(IsIdent(b[r]) || (dotted && b[r] == DOT))
    decreases if i <= end then end - i else 0
  {
    if i < end && (IsIdent(b[i]) || (dotted && b[i] == DOT)) then NameEnd(b, i + 1, end, dotted) else i
  }

  method WalkName(b: bytes, i: nat, end: nat, dotted: bool) returns (r: nat)
    requires end <= |b|
    ensures r == NameEnd(b, i, end, dotted)
  {
    r := i;
    while r < end && (IsIdent(b[r]) || (dotted && b[r] == DOT))
      invariant i <= r && NameEnd(b, r, end, dotted) == NameEnd(b, i, end, dotted)
    {
      r := r + 1;
    }
  }

  /** An identifier that opens no literal is walked byte by byte along the tokenization. */
  lemma {:induction false} IdentAligned(b: bytes, i: nat, j: nat)
    requires i <= j <= |b| && (i < j ==> Code(b, i))
    requires forall k :: i <= k < j ==> IsIdent(b[k])
    ensures Reach(b, i, j)
    ensures forall k :: i <= k < j ==> Code(b, k)
    decreases j - i
  {
    if i < j {
      var n := i + 1;
      assert n < j ==> IdentBefore(b, n);
      IdentAligned(b, n, j);
    }
  }

  /** A raw string opens at `k`. */
  predicate OpensRaw(b: bytes, k: nat) {
    k < |b| && b[k] == LOWER_R && OpaqueEnd(b, k).Some?
  }

  /** The byte after a raw-string opener ends any name walk. */
  lemma RawOpenerStopsName(b: bytes, k: nat, end: nat, dotted: bool)
    requires OpensRaw(b, k) && end <= |b|
    ensures k + 1 < |b| && (b[k + 1] == HASH || b[k + 1] == QUOTE)
    ensures NameEnd(b, k + 1, end, dotted) == k + 1
    ensures OpaqueEnd(b, k).value > k + 1
  {
    var j := HashesEnd(b, k + 1);
    assert j < |b| && b[j] == QUOTE;
  }

  /** The name walk leaves the tokenization exactly when it stops inside a raw string it has entered. */
  lemma {:induction false} NameWalkAligned(b: bytes, i: nat, end: nat)
    requires i <= end <= |b|
    ensures var j := NameEnd(b, i, end, true);
            Reach(b, i, j) <==> !(i < j && OpensRaw(b, j - 1))
    decreases end - i
  {
    var j := NameEnd(b, i, end, true);
    if i < j {
      var n := i + 1;
      if OpensRaw(b, i) {
        RawOpenerStopsName(b, i, end, true);
        assert j == n && Next(b, i) > n;
      } else {
        assert Code(b, i) && Next(b, i) == n;
        NameWalkAligned(b, n, end);
        assert j == NameEnd(b, n, end, true);
      }
    }
  }

  /** The segment after the last dot. */
  function LastSegment(key: bytes): bytes {
    if key == [] then []
    else if key[|key| - 1] == DOT then []
    else LastSegment(key[..|key| - 1]) + [key[|key| - 1]]
  }

  // ----- classification -----

  datatype ArgKind =
    | Field(key: bytes, at: nat, value: Option<nat>)
    | Message
    | Group(start: nat, end: nat)
    | Other

  /** `i` is an assignment sign, not part of `==` (nor of `=>` when `arrow`). */
  predicate IsAssign(b: bytes, i: nat, arrow: bool)
    requires i < |b|
  {
    b[i] == EQUALS && !(i + 1 < |b| && (b[i + 1] == EQUALS || (arrow && b[i + 1] == GREATER)))
  }

  ghost function GroupKind(b: bytes, i: nat, z: nat): ArgKind
    requires z <= |b|
  {
    match CloseOf(b, i)
    case Some(c) => if TriviaEnd(b, c + 1, z) >= z then Group(i + 1, c) else Other
    case None => Other
  }

  function QuotedKind(b: bytes, i: nat, z: nat): ArgKind
    requires i < z <= |b|
  {
    var close := StringEnd(b, i + 1);
    var raw := if close > i + 1 then b[i + 1..close - 1] else [];
    var k := TriviaEnd(b, close, z);
    if k < z && IsAssign(b, k, false) then Field(LastSegment(raw), i, Some(k + 1)) else Message
  }

  /** Where the name of an argument starts: past a `%` or `?` sigil. */
  function NameStart(b: bytes, i: nat, z: nat): nat
    requires i < z <= |b|
  {
    if b[i] == PERCENT || b[i] == QUESTION then TriviaEnd(b, i + 1, z) else i
  }

  /** The argument whose sigil or name is at `i` and whose name is `n..j`. */
  function KindAfterName(b: bytes, i: nat, n: nat, j: nat, z: nat): ArgKind
    requires n <= j <= z <= |b|
  {
    var rest := TriviaEnd(b, j, z);
    if rest >= z then Field(LastSegment(b[n..j]), i, None)
    else if IsAssign(b, rest, true) then Field(LastSegment(b[n..j]), i, Some(rest + 1))
    else Other
  }

  function NamedKind(b: bytes, i: nat, z: nat): ArgKind
    requires i < z <= |b|
  {
    var n := NameStart(b, i, z);
    var j := NameEnd(b, n, z, true);
    if j == n || 48 <= b[n] <= 57 then Other else KindAfterName(b, i, n, j, z)
  }

  /** What the argument `a..z` is. */
  ghost function KindOf(b: bytes, a: nat, z: nat): ArgKind
    requires a <= z <= |b|
  {
    var i := TriviaEnd(b, a, z);
    if i >= z then Other
    else if b[i] == OPEN_BRACE then GroupKind(b, i, z)
    else if b[i] == QUOTE then QuotedKind(b, i, z)
    else NamedKind(b, i, z)
  }

  method ClassifyGroup(b: bytes, i: nat, z: nat) returns (kind: ArgKind)
    requires i < z <= |b| && b[i] == OPEN_BRACE
    ensures kind == GroupKind(b, i, z)
  {
    var close := MatchingClose(b, i);
    if close.None? {
      return Other;
    }
    var after := SkipTrivia(b, close.value + 1, z);
    kind := if after >= z then Group(i + 1, close.value) else Other;
  }

  method ClassifyQuoted(b: bytes, i: nat, z: nat) returns (kind: ArgKind)
    requires i < z <= |b|
    ensures kind == QuotedKind(b, i, z)
  {
    hide StringEnd, TriviaEnd, LastSegment;
    var close := SkipString(b, i + 1);
    var raw := if close > i + 1 then b[i + 1..close - 1] else [];
    var k := SkipTrivia(b, close, z);
    kind := if k < z && IsAssign(b, k, false) then Field(LastSegment(raw), i, Some(k + 1)) else Message;
  }

  method ClassifyAfterName(b: bytes, i: nat, n: nat, j: nat, z: nat) returns (kind: ArgKind)
    requires n <= j <= z <= |b|
    ensures kind == KindAfterName(b, i, n, j, z)
  {
    var rest := SkipTrivia(b, j, z);
    if rest >= z {
      return Field(LastSegment(b[n..j]), i, None);
    }
    kind := if IsAssign(b, rest, true) then Field(LastSegment(b[n..j]), i, Some(rest + 1)) else Other;
  }

  method ClassifyNamed(b: bytes, i: nat, z: nat) returns (kind: ArgKind)
    requires i < z <= |b|
    ensures kind == NamedKind(b, i, z)
  {
    var n := i;
    if b[i] == PERCENT || b[i] == QUESTION {
      n := SkipTrivia(b, i + 1, z);
    }
    var j := WalkName(b, n, z, true);
    if j == n || 48 <= b[n] <= 57 {
      kind := Other;
    } else {
      kind := ClassifyAfterName(b, i, n, j, z);
    }
  }

  method ClassifyArg(b: bytes, a: nat, z: nat) returns (kind: ArgKind)
    requires a <= z <= |b|
    ensures kind == KindOf(b, a, z)
  {
    var i := SkipTrivia(b, a, z);
    if i >= z {
      kind := Other;
    } else if b[i] == OPEN_BRACE {
      kind := ClassifyGroup(b, i, z);
    } else if b[i] == QUOTE {
      kind := ClassifyQuoted(b, i, z);
    } else {
      kind := ClassifyNamed(b, i, z);
    }
  }

  // ----- alignment of what classification reports -----

  /** A field's offsets are token boundaries of the argument it was found in. */
  ghost predicate FieldAligned(b: bytes, a: nat, z: nat, kind: ArgKind) {
    kind.Field? ==>
      && a <= kind.at < z <= |b| && Reach(b, a, kind.at) && b[kind.at] != NEWLINE
      && (kind.value.Some? ==> kind.value.value <= z && Reach(b, a, kind.value.value) && Reach(b, kind.value.value, z))
  }

  lemma StepPastCode(b: bytes, a: nat, i: nat, z: nat)
    requires Reach(b, a, i) && Reach(b, i, z) && i < z <= |b| && Code(b, i)
    ensures Reach(b, a, i + 1) && Reach(b, i + 1, z)
  {
    NoOvershoot(b, i, z);
    ReachStep(b, a, i);
  }

  lemma QuotedAligned(b: bytes, a: nat, i: nat, z: nat)
    requires Reach(b, a, i) && Reach(b, i, z) && i < z <= |b| && b[i] == QUOTE
    ensures FieldAligned(b, a, z, QuotedKind(b, i, z))
  {
    ReachBounds(b, a, i);
    NoOvershoot(b, i, z);
    var close := StringEnd(b, i + 1);
    assert Next(b, i) == close;
    ReachStep(b, a, i);
    AfterQuoteAligned(b, a, close, z);
  }

  lemma AfterQuoteAligned(b: bytes, a: nat, close: nat, z: nat)
    requires Reach(b, a, close) && Reach(b, close, z) && z <= |b|
    ensures var k := TriviaEnd(b, close, z);
            k < z && b[k] == EQUALS ==> Reach(b, a, k + 1) && Reach(b, k + 1, z)
  {
    TriviaAligned(b, close, z);
    var k := TriviaEnd(b, close, z);
    ReachTrans(b, a, close, k);
    if k < z && b[k] == EQUALS {
      StepPastCode(b, a, k, z);
    }
  }

  lemma NamedAligned(b: bytes, a: nat, i: nat, z: nat)
    requires Reach(b, a, i) && Reach(b, i, z) && i < z <= |b| && b[i] != NEWLINE
    ensures FieldAligned(b, a, z, NamedKind(b, i, z))
  {
    hide OpaqueEnd, Code, Next;
    ReachBounds(b, a, i);
    var n := NameStart(b, i, z);
    NameStartAligned(b, i, z);
    ReachTrans(b, a, i, n);
    var j := NameEnd(b, n, z, true);
    if n < j {
      if OpensRaw(b, j - 1) {
        RawOpenerIsNoField(b, i, n, j, z);
      } else {
        NameWalkAligned(b, n, z);
        ReachTrans(b, a, n, j);
        ReachBetween(b, n, j, z);
        AfterNameAligned(b, a, i, n, j, z);
      }
    }
  }

  /** From the end of a name to the start of its value. */
  lemma AfterNameAligned(b: bytes, a: nat, i: nat, n: nat, j: nat, z: nat)
    requires a <= i < z <= |b| && Reach(b, a, i) && b[i] != NEWLINE
    requires n <= j <= z && Reach(b, a, j) && Reach(b, j, z)
    ensures FieldAligned(b, a, z, KindAfterName(b, i, n, j, z))
  {
    TriviaAligned(b, j, z);
    var rest := TriviaEnd(b, j, z);
    ReachTrans(b, a, j, rest);
    if rest < z && b[rest] == EQUALS {
      StepPastCode(b, a, rest, z);
    }
  }

  lemma NameStartAligned(b: bytes, i: nat, z: nat)
    requires Reach(b, i, z) && i < z <= |b|
    ensures var n := NameStart(b, i, z);
            n <= z && Reach(b, i, n) && Reach(b, n, z)
  {
    if b[i] == PERCENT || b[i] == QUESTION {
      StepPastCode(b, i, i, z);
      TriviaAligned(b, i + 1, z);
      ReachTrans(b, i, i + 1, NameStart(b, i, z));
    }
  }

  /** A name that runs into a raw string is followed, inside the argument, by its hash or quote. */
  lemma RawOpenerIsNoField(b: bytes, i: nat, n: nat, j: nat, z: nat)
    requires z <= |b| && Reach(b, n, z) && n < j && j == NameEnd(b, n, z, true) && OpensRaw(b, j - 1)
    ensures j <= z && KindAfterName(b, i, n, j, z) == Other
  {
    var k := j - 1;
    RawOpenerStopsName(b, k, z, true);
    NamePrefixAligned(b, n, k);
    ReachBetween(b, n, k, z);
    NoOvershoot(b, k, z);
    assert j < z && TriviaEnd(b, j, z) == j;
  }

  /** Before its last byte a name walk enters no raw string, because an opener ends the walk. */
  lemma {:induction false} NamePrefixAligned(b: bytes, n: nat, k: nat)
    requires n <= k < |b|
    requires forall m :: n <= m <= k ==> IsNameByte(b[m])
    ensures Reach(b, n, k)
    decreases k - n
  {
    if n < k {
      assert IsNameByte(b[n + 1]);
      if OpensRaw(b, n) {
        RawOpenerStopsName(b, n, |b|, true);
        assert false;
      }
      assert Code(b, n) && Next(b, n) == n + 1;
      var m := n + 1;
      NamePrefixAligned(b, m, k);
    }
  }

  lemma GroupAligned(b: bytes, a: nat, i: nat, z: nat)
    requires Region(b, a, z) && Reach(b, a, i) && i < z && b[i] == OPEN_BRACE
    ensures var g := GroupKind(b, i, z);
            g.Other? || (g.Group? && a < g.start && g.end < z && Region(b, g.start, g.end) && Reach(b, a, g.start))
  {
    ReachBounds(b, a, i);
    var c := ClosesInside(b, a, z, i);
    MatchedInside(b, i, c);
    ReachBetween(b, a, i, z);
    StepPastCode(b, a, i, z);
  }

  /** Everything classification reports about a balanced argument lies on its token boundaries. */
  lemma KindAligned(b: bytes, a: nat, z: nat)
    requires Region(b, a, z)
    ensures FieldAligned(b, a, z, KindOf(b, a, z))
    ensures KindOf(b, a, z).Group? ==>
              var g := KindOf(b, a, z);
              a < g.start && g.end < z && Region(b, g.start, g.end) && Reach(b, a, g.start)
  {
    TriviaAligned(b, a, z);
    var i := TriviaEnd(b, a, z);
    if i < z {
      if b[i] == OPEN_BRACE {
        GroupAligned(b, a, i, z);
      } else if b[i] == QUOTE {
        QuotedAligned(b, a, i, z);
      } else {
        NamedAligned(b, a, i, z);
      }
    }
  }

  /**
   A raw string argument is never read as the message: the name walk takes its
   `r` for a name, so the argument is classified as anything else.
   */
  lemma RawStringIsNeverMessage(b: bytes, a: nat, z: nat)
    requires a <= z <= |b| && Reach(b, a, z)
    requires TriviaEnd(b, a, z) < z && OpensRaw(b, TriviaEnd(b, a, z))
    ensures KindOf(b, a, z) == Other
  {
    var i := TriviaEnd(b, a, z);
    TriviaAligned(b, a, z);
    assert NameStart(b, i, z) == i;
    RawOpenerStopsName(b, i, z, true);
    var j := NameEnd(b, i, z, true);
    assert j == i + 1;
    RawOpenerIsNoField(b, i, i, j, z);
  }

  // ----- the value rule -----

  /** `ingest.url` stands at `i`, on identifier boundaries, inside the range ending at `end`. */
  predicate NeedleAt(b: bytes, i: nat, end: nat)
    requires end <= |b|
  {
    && i + |VALUE_NEEDLE| <= end && b[i..i + |VALUE_NEEDLE|] == VALUE_NEEDLE
    && !IdentBefore(b, i)
    && !(i + |VALUE_NEEDLE| < |b| && IsIdent(b[i + |VALUE_NEEDLE|]))
  }

  /** The needle, spelled out. */
  lemma NeedleIff(b: bytes, i: nat, end: nat)
    requires end <= |b|
    ensures NeedleAt(b, i, end) <==>
            && i + 10 <= end && Spells(b[i..i + 10], "ingest.url")
            && !(i > 0 && IsIdent(b[i - 1])) && !(i + 10 < |b| && IsIdent(b[i + 10]))
  {
  }

  /** The needle as code: at a token boundary reached from `s`, not inside a literal or comment. */
  ghost predicate CodeNeedle(b: bytes, s: nat, end: nat, i: nat) {
    s <= i < end <= |b| && Reach(b, s, i) && Code(b, i) && NeedleAt(b, i, end)
  }

  ghost predicate FirstNeedle(b: bytes, s: nat, end: nat, i: nat) {
    CodeNeedle(b, s, end, i) && forall k: nat :: k < i ==> !CodeNeedle(b, s, end, k)
  }

  method FindValueNeedle(b: bytes, s: nat, end: nat) returns (r: Option<nat>)
    requires s <= end <= |b|
    ensures r.Some? ==> FirstNeedle(b, s, end, r.value)
    ensures r.None? ==> forall i: nat :: !CodeNeedle(b, s, end, i)
  {
    var i := s;
    while i < end
      invariant s <= i && Reach(b, s, i)
      invariant forall k: nat :: k < i ==> !CodeNeedle(b, s, end, k)
      decreases |b| - i
    {
      ReachStep(b, s, i);
      OnlyNext(b, s, i);
      var next := SkipOpaque(b, i);
      if next.Some? {
        i := next.value;
        continue;
      }
      if NeedleAt(b, i, end) {
        return Some(i);
      }
      i := i + 1;
    }
    r := None;
  }
}
