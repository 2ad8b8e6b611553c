/** Which spans are exported: names that never are, and sampling rules keyed on the trace id. */
module Sampling {
  import opened Common

  datatype Config = Config(dropNames: set<string>, prefixSample: seq<(string, real)>)

  function HexDigit(c: char): Option<nat> {
    if '0' <= c <= '9' then Some(c as nat - '0' as nat)
    else if 'a' <= c <= 'f' then Some(c as nat - 'a' as nat + 10)
    else if 'A' <= c <= 'F' then Some(c as nat - 'A' as nat + 10)
    else None
  }

  function HexDigits(s: string): Option<nat> {
    if s == [] then Some(0)
    else
      var init, last := HexDigits(s[..|s| - 1]), HexDigit(s[|s| - 1]);
      if init.Some? && last.Some? then Some(init.value * 16 + last.value) else None
  }

  /** A hexadecimal number, with an optional plus sign; no digits is malformed. */
  function ParseHex(s: string): Option<nat> {
    var digits := if s != [] && s[0] == '+' then s[1..] else s;
    if digits == [] then None else HexDigits(digits)
  }

  const BUCKETS: nat := 10_000

  function TraceIdBucket(traceId: string): (r: nat)
    ensures r < BUCKETS
  {
    if |traceId| < 8 then 0
    else
      match ParseHex(traceId[..8])
      case Some(v) => v % BUCKETS
      case None => 0
  }

  predicate HasPrefix(name: string, prefix: string) {
    prefix <= name
  }

  predicate Sampled(ratio: real, traceId: string) {
    if ratio <= 0.0 then false
    else if ratio >= 1.0 then true
    else TraceIdBucket(traceId) < (ratio * 10_000.0).Floor
  }

  predicate SampleBy(rules: seq<(string, real)>, name: string, traceId: string) {
    if rules == [] then true
    else if HasPrefix(name, rules[0].0) then Sampled(rules[0].1, traceId)
    else SampleBy(rules[1..], name, traceId)
  }

  predicate ShouldShip(cfg: Config, name: string, traceId: string) {
    name !in cfg.dropNames && SampleBy(cfg.prefixSample, name, traceId)
  }

  /** The position of the rule that applies to a name, or the number of rules when none does. */
  function RuleOf(rules: seq<(string, real)>, name: string): (k: nat)
    ensures k <= |rules|
    ensures forall j :: 0 <= j < k ==> !HasPrefix(name, rules[j].0)
    ensures k < |rules| ==> HasPrefix(name, rules[k].0)
  {
    if rules == [] || HasPrefix(name, rules[0].0) then 0 else 1 + RuleOf(rules[1..], name)
  }

  /** The first rule whose prefix fits decides alone. */
  lemma {:induction false} FirstRuleDecides(rules: seq<(string, real)>, name: string, traceId: string)
    ensures var k := RuleOf(rules, name);
            SampleBy(rules, name, traceId) <==> (k < |rules| ==> Sampled(rules[k].1, traceId))
  {
    if rules != [] && !HasPrefix(name, rules[0].0) {
      FirstRuleDecides(rules[1..], name, traceId);
    }
  }

  /** Two names under the same rule share their fate in a trace, unless one is never exported. */
  lemma SameRuleSameFate(cfg: Config, x: string, y: string, traceId: string)
    requires x !in cfg.dropNames && y !in cfg.dropNames && RuleOf(cfg.prefixSample, x) == RuleOf(cfg.prefixSample, y)
    ensures ShouldShip(cfg, x, traceId) <==> ShouldShip(cfg, y, traceId)
  {
    FirstRuleDecides(cfg.prefixSample, x, traceId);
    FirstRuleDecides(cfg.prefixSample, y, traceId);
  }

  /** Raising ratios never drops a trace that was kept. */
  lemma {:induction false} RaisingRatiosKeeps(low: seq<(string, real)>, high: seq<(string, real)>, name: string,
                                              traceId: string)
    requires |low| == |high| && forall k :: 0 <= k < |low| ==> low[k].0 == high[k].0 && low[k].1 <= high[k].1
    requires SampleBy(low, name, traceId)
    ensures SampleBy(high, name, traceId)
  {
    if low != [] {
      if HasPrefix(name, low[0].0) {
        FloorGrows(low[0].1, high[0].1);
      } else {
        RaisingRatiosKeeps(low[1..], high[1..], name, traceId);
      }
    }
  }

  lemma FloorGrows(x: real, y: real)
    requires x <= y
    ensures (x * 10_000.0).Floor <= (y * 10_000.0).Floor
  {
  }

  // ----- the bucket of a trace, and the share of traces a rule keeps -----

  const LOWER_HEX: string := "0123456789abcdef"
  const UPPER_HEX: string := "0123456789ABCDEF"

  /** The character `c` is the hexadecimal digit of value `d`. */
  predicate IsDigit(c: char, d: nat) {
    d < 16 && (c == LOWER_HEX[d] || c == UPPER_HEX[d])
  }

  ghost predicate IsHex(c: char) {
    exists d: nat :: IsDigit(c, d)
  }

  lemma DigitIff(c: char, d: nat)
    ensures HexDigit(c) == Some(d) <==> IsDigit(c, d)
  {
  }

  ghost predicate Digits(s: string, d: seq<nat>) {
    |s| == |d| && forall k :: 0 <= k < |s| ==> IsDigit(s[k], d[k])
  }

  /** The first eight characters are hexadecimal digits: the bucket is their big-endian value modulo 10000. */
  lemma EightDigitBucket(t: string, d: seq<nat>)
    requires |t| >= 8 && Digits(t[..8], d)
    ensures TraceIdBucket(t) ==
            (d[0] * 0x1000_0000 + d[1] * 0x100_0000 + d[2] * 0x10_0000 + d[3] * 0x1_0000
             + d[4] * 0x1000 + d[5] * 0x100 + d[6] * 0x10 + d[7]) % 10_000
  {
    NoSign(t[..8], d);
    var v := EightDigits(t[..8], d);
    hide HexDigits, Digits;
  }

  lemma EightDigits(s: string, d: seq<nat>) returns (v: nat)
    requires |s| == 8 && Digits(s, d)
    ensures v == d[0] * 0x1000_0000 + d[1] * 0x100_0000 + d[2] * 0x10_0000 + d[3] * 0x1_0000
                 + d[4] * 0x1000 + d[5] * 0x100 + d[6] * 0x10 + d[7]
    ensures HexDigits(s) == Some(v)
  {
    hide IsDigit, HexDigits;
    v := SevenDigits(s, d);
    NextDigit(s, 7, d[7], v);
    v := v * 16 + d[7];
    assert s[..8] == s;
  }

  lemma NoSign(s: string, d: seq<nat>)
    requires |s| > 0 && Digits(s, d)
    ensures s[0] != '+'
  {
  }

  lemma SevenDigits(s: string, d: seq<nat>) returns (v: nat)
    requires |s| == |d| >= 7 && forall k :: 0 <= k < 7 ==> IsDigit(s[k], d[k])
    ensures v == d[0] * 0x100_0000 + d[1] * 0x10_0000 + d[2] * 0x1_0000
                 + d[3] * 0x1000 + d[4] * 0x100 + d[5] * 0x10 + d[6]
    ensures HexDigits(s[..7]) == Some(v)
  {
    hide IsDigit;
    assert s[..0] == [];
    v := 0;
    var k := 0;
    while k < 7
      invariant 0 <= k <= 7 && HexDigits(s[..k]) == Some(v)
      invariant k == 1 ==> v == d[0]
      invariant k == 2 ==> v == d[0] * 0x10 + d[1]
      invariant k == 3 ==> v == d[0] * 0x100 + d[1] * 0x10 + d[2]
      invariant k == 4 ==> v == d[0] * 0x1000 + d[1] * 0x100 + d[2] * 0x10 + d[3]
      invariant k == 5 ==> v == d[0] * 0x1_0000 + d[1] * 0x1000 + d[2] * 0x100 + d[3] * 0x10 + d[4]
      invariant k == 6 ==>
                v == d[0] * 0x10_0000 + d[1] * 0x1_0000 + d[2] * 0x1000 + d[3] * 0x100 + d[4] * 0x10 + d[5]
      invariant k == 7 ==>
                v == d[0] * 0x100_0000 + d[1] * 0x10_0000 + d[2] * 0x1_0000
                     + d[3] * 0x1000 + d[4] * 0x100 + d[5] * 0x10 + d[6]
    {
      NextDigit(s, k, d[k], v);
      v := v * 16 + d[k];
      k := k + 1;
    }
  }

  lemma NextDigit(s: string, n: nat, d: nat, v: nat)
    requires n < |s| && HexDigits(s[..n]) == Some(v) && IsDigit(s[n], d)
    ensures HexDigits(s[..n + 1]) == Some(v * 16 + d)
  {
    DigitIff(s[n], d);
    hide HexDigit, IsDigit;
    assert s[..n + 1][..n] == s[..n];
  }

  /** A plus sign and seven digits: the bucket is the value of the seven. */
  lemma SignedBucket(t: string, d: seq<nat>)
    requires |t| >= 8 && t[0] == '+' && Digits(t[1..8], d)
    ensures TraceIdBucket(t) ==
            (d[0] * 0x100_0000 + d[1] * 0x10_0000 + d[2] * 0x1_0000
             + d[3] * 0x1000 + d[4] * 0x100 + d[5] * 0x10 + d[6]) % 10_000
  {
    var s := t[1..8];
    assert t[..8][1..] == s;
    var v := SevenDigits(s, d);
    assert s[..7] == s;
  }

  /** Too short, or with a character that is no digit (a leading plus sign aside): bucket zero. */
  lemma MalformedBucket(t: string, k: nat)
    requires |t| < 8 || (k < 8 && !IsHex(t[k]) && !(k == 0 && t[0] == '+'))
    ensures TraceIdBucket(t) == 0
  {
    if |t| >= 8 {
      var s := t[..8];
      if s[0] == '+' {
        NoDigits(s[1..], k - 1);
      } else {
        NoDigits(s, k);
      }
    }
  }

  lemma {:induction false} NoDigits(s: string, k: nat)
    requires k < |s| && !IsHex(s[k])
    ensures HexDigits(s).None?
  {
    if k == |s| - 1 {
      if HexDigit(s[k]).Some? {
        DigitIff(s[k], HexDigit(s[k]).value);
        assert false;
      }
    } else {
      NoDigits(s[..|s| - 1], k);
    }
  }

  ghost predicate StartsWith(name: string, prefix: string) {
    exists rest: string :: name == prefix + rest
  }

  lemma PrefixIff(name: string, prefix: string)
    ensures HasPrefix(name, prefix) <==> StartsWith(name, prefix)
  {
    if HasPrefix(name, prefix) {
      assert name == prefix + name[|prefix|..];
    }
  }

  /** The first rule whose prefix the name starts with. */
  ghost predicate FirstRule(rules: seq<(string, real)>, name: string, k: nat) {
    k < |rules| && StartsWith(name, rules[k].0) && forall j: nat :: j < k ==> !StartsWith(name, rules[j].0)
  }

  /** A ratio keeps exactly the traces whose bucket, counted from one, is at most that share of the 10000 buckets. */
  lemma SampledIff(ratio: real, traceId: string)
    ensures Sampled(ratio, traceId) <==> (TraceIdBucket(traceId) + 1) as real <= ratio * 10_000.0
  {
    var b := TraceIdBucket(traceId);
    FloorAbove(ratio * 10_000.0, b);
  }

  lemma FloorAbove(x: real, b: nat)
    ensures b < x.Floor <==> (b + 1) as real <= x
  {
  }

  /** What is exported: a name that is not dropped, when its first rule, if it has one, keeps the trace's bucket. */
  lemma ShouldShipIff(cfg: Config, name: string, traceId: string)
    ensures ShouldShip(cfg, name, traceId) <==>
            && name !in cfg.dropNames
            && forall k: nat :: FirstRule(cfg.prefixSample, name, k) ==>
                 (TraceIdBucket(traceId) + 1) as real <= cfg.prefixSample[k].1 * 10_000.0
  {
    var rules := cfg.prefixSample;
    FirstRuleDecides(rules, name, traceId);
    var r := RuleOf(rules, name);
    forall k: nat ensures FirstRule(rules, name, k) <==> k == r && r < |rules| {
      RuleIsFirst(rules, name, k);
    }
    if r < |rules| {
      SampledIff(rules[r].1, traceId);
    }
    hide FirstRule, RuleOf, Sampled, SampleBy, TraceIdBucket;
  }

  lemma RuleIsFirst(rules: seq<(string, real)>, name: string, k: nat)
    ensures FirstRule(rules, name, k) <==> k == RuleOf(rules, name) && k < |rules|
  {
    forall j: nat | j < |rules| ensures HasPrefix(name, rules[j].0) <==> StartsWith(name, rules[j].0) {
      PrefixIff(name, rules[j].0);
    }
    hide HasPrefix, StartsWith;
    var r := RuleOf(rules, name);
    if FirstRule(rules, name, k) {
      assert HasPrefix(name, rules[k].0);
      assert r < |rules| ==> StartsWith(name, rules[r].0);
    }
  }
}
