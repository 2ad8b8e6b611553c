/** The scan of one source file: tracing macros, instrument attributes, ordered output. */
module SourceScan {
  import opened Common
  import opened Lexer
  import opened Brackets
  import opened Marker
  import opened FieldArgs
  import opened SpanFields

  const BANG: byte := 33
  const OPEN_PAREN: byte := 40

  const FIELDS: bytes := [102, 105, 101, 108, 100, 115]  // fields
  const INSTRUMENT: bytes := [105, 110, 115, 116, 114, 117, 109, 101, 110, 116]  // instrument
  const SPAN: bytes := [115, 112, 97, 110]  // span
  const EVENT: bytes := [101, 118, 101, 110, 116]  // event

  const TRACING_MACROS: seq<bytes> := [
    [116, 114, 97, 99, 101],  // trace
    [100, 101, 98, 117, 103],  // debug
    [105, 110, 102, 111],  // info
    [119, 97, 114, 110],  // warn
    [101, 114, 114, 111, 114],  // error
    [101, 118, 101, 110, 116],  // event
    [115, 112, 97, 110],  // span
    [116, 114, 97, 99, 101, 95, 115, 112, 97, 110],  // trace_span
    [100, 101, 98, 117, 103, 95, 115, 112, 97, 110],  // debug_span
    [105, 110, 102, 111, 95, 115, 112, 97, 110],  // info_span
    [119, 97, 114, 110, 95, 115, 112, 97, 110],  // warn_span
    [101, 114, 114, 111, 114, 95, 115, 112, 97, 110]  // error_span
  ]

  /** A span macro's fields follow its name string; an event macro's precede the message. */
  predicate IsSpanMacro(name: bytes) {
    |name| >= 4 && name[|name| - 4..] == SPAN && name != EVENT
  }

  predicate EventMacroName(name: bytes) {
    || Spells(name, "trace") || Spells(name, "debug") || Spells(name, "info") || Spells(name, "warn")
    || Spells(name, "error") || Spells(name, "event")
  }

  predicate SpanMacroName(name: bytes) {
    || Spells(name, "span") || Spells(name, "trace_span") || Spells(name, "debug_span")
    || Spells(name, "info_span") || Spells(name, "warn_span") || Spells(name, "error_span")
  }

  lemma EventMacrosSpelled()
    ensures Spells(TRACING_MACROS[0], "trace")
    ensures Spells(TRACING_MACROS[1], "debug")
    ensures Spells(TRACING_MACROS[2], "info")
    ensures Spells(TRACING_MACROS[3], "warn")
    ensures Spells(TRACING_MACROS[4], "error")
    ensures Spells(TRACING_MACROS[5], "event")
  {
  }

  lemma SpanMacrosSpelled()
    ensures Spells(TRACING_MACROS[6], "span")
    ensures Spells(TRACING_MACROS[7], "trace_span")
    ensures Spells(TRACING_MACROS[8], "debug_span")
    ensures Spells(TRACING_MACROS[9], "info_span")
    ensures Spells(TRACING_MACROS[10], "warn_span")
    ensures Spells(TRACING_MACROS[11], "error_span")
  {
  }

  /** The suffix test, character by character. */
  lemma SpanSuffix(name: bytes)
    ensures IsSpanMacro(name) <==>
            var n := |name|;
            n >= 4 && At(name, n - 4, 's') && At(name, n - 3, 'p') && At(name, n - 2, 'a') && At(name, n - 1, 'n')
  {
    if |name| >= 4 {
      var tail := name[|name| - 4..];
      assert tail == [tail[0], tail[1], tail[2], tail[3]];
    }
  }

  lemma SpanSuffixOf(name: bytes)
    ensures EventMacroName(name) ==> !IsSpanMacro(name)
    ensures SpanMacroName(name) ==> IsSpanMacro(name)
  {
    SpanSuffix(name);
    hide IsSpanMacro;
  }

  lemma OneSpelling(x: bytes, y: bytes, text: string)
    requires Spells(x, text) && Spells(y, text)
    ensures x == y
  {
  }

  /** The tracing macros by name, and which of them open spans. */
  lemma MacroNameIff(name: bytes)
    ensures name in TRACING_MACROS <==> EventMacroName(name) || SpanMacroName(name)
    ensures EventMacroName(name) ==> !IsSpanMacro(name)
    ensures SpanMacroName(name) ==> IsSpanMacro(name)
  {
    EventMacrosSpelled();
    SpanMacrosSpelled();
    SpanSuffixOf(name);
    hide Spells, IsSpanMacro;
    forall k, text: string | 0 <= k < 12 && Spells(TRACING_MACROS[k], text) && Spells(name, text)
      ensures name == TRACING_MACROS[k]
    {
      OneSpelling(name, TRACING_MACROS[k], text);
    }
  }

  /** The other words and signs the scan looks for. */
  lemma WordsSpelled(name: bytes)
    ensures name == FIELDS <==> Spells(name, "fields")
    ensures name == INSTRUMENT <==> Spells(name, "instrument")
    ensures name == VALUE_NEEDLE <==> Spells(name, "ingest.url")
    ensures BANG == '!' as int && OPEN_PAREN == '(' as int && HASH == '#' as int && OPEN_BRACKET == '[' as int
    ensures COMMA == ',' as int
  {
  }

  /** An identifier starts at `p`, not inside a longer one. */
  predicate WordStart(b: bytes, p: nat) {
    p < |b| && IsIdent(b[p]) && !IdentBefore(b, p)
  }

  /** The identifier at `p`, read no further than `end`. */
  function Word(b: bytes, p: nat, end: nat): bytes
    requires p <= end <= |b|
  {
    b[p..NameEnd(b, p, end, false)]
  }

  /** The identifier `w` stands at `p`: not the end of a longer one, and not going on before `end`. */
  ghost predicate StandsAt(b: bytes, p: nat, end: nat, w: bytes) {
    && w != [] && p + |w| <= end <= |b| && b[p..p + |w|] == w
    && (forall c :: c in w ==> IsIdent(c))
    && !(p > 0 && IsIdent(b[p - 1]))
    && !(p + |w| < end && IsIdent(b[p + |w|]))
  }

  lemma WordIff(b: bytes, p: nat, end: nat, w: bytes)
    requires p < end <= |b|
    ensures WordStart(b, p) && Word(b, p, end) == w <==> StandsAt(b, p, end, w)
  {
    var j := NameEnd(b, p, end, false);
    if WordStart(b, p) && Word(b, p, end) == w {
      assert j > p;
    }
    if StandsAt(b, p, end, w) {
      WordEnds(b, p, end, w);
    }
  }

  lemma WordEnds(b: bytes, p: nat, end: nat, w: bytes)
    requires p < end <= |b| && StandsAt(b, p, end, w)
    ensures WordStart(b, p) && NameEnd(b, p, end, false) == p + |w|
  {
    var j := NameEnd(b, p, end, false);
    forall k | p <= k < p + |w| ensures IsIdent(b[k]) {
      assert b[k] == w[k - p];
    }
  }

  /** A word is walked along the tokenization and no other word starts inside it. */
  lemma WordAligned(b: bytes, s: nat, p: nat, end: nat)
    requires p < end <= |b| && WordStart(b, p) && Reach(b, s, p) && Code(b, p)
    ensures var j := NameEnd(b, p, end, false);
            && p < j <= end && Reach(b, s, j)
            && forall k {:trigger WordStart(b, k)} :: p < k < j ==> !WordStart(b, k) && b[k] != HASH
  {
    var j := NameEnd(b, p, end, false);
    IdentAligned(b, p, j);
    ReachTrans(b, s, p, j);
    forall k | p < k < j ensures !WordStart(b, k) {
      assert IsIdent(b[k - 1]);
    }
  }

  /** Trivia that runs towards a non-trivia code boundary stops there at the latest. */
  lemma TriviaStops(b: bytes, i: nat, end: nat, c: nat)
    requires i <= c < end <= |b| && Reach(b, i, end) && Reach(b, i, c)
    requires !IsSpace(b[c]) && b[c] != SLASH
    ensures TriviaEnd(b, i, end) <= c
  {
    TriviaAligned(b, i, end);
  }

  // ----- instrument attributes -----

  /** In the attribute body `s..e`: the word `fields` at `p` with its parenthesized group. */
  ghost predicate FieldsSite(b: bytes, s: nat, e: nat, p: nat, open: nat, close: nat) {
    && s <= p < e <= |b| && Reach(b, s, p) && Code(b, p) && WordStart(b, p)
    && Word(b, p, e) == FIELDS
    && open == TriviaEnd(b, NameEnd(b, p, e, false), e)
    && open < |b| && b[open] == OPEN_PAREN && Matches(b, open, close)
  }

  /** `x` lies inside the group of some `fields(...)`. */
  ghost predicate InFields(b: bytes, s: nat, e: nat, x: nat) {
    exists p: nat, open: nat, close: nat :: FieldsSite(b, s, e, p, open, close) && p < x <= close
  }

  ghost predicate HasFields(b: bytes, s: nat, e: nat, p: nat) {
    exists open: nat, close: nat :: FieldsSite(b, s, e, p, open, close)
  }

  ghost predicate InstrumentSite(b: bytes, s: nat, e: nat, p: nat) {
    && s <= p < e <= |b| && Reach(b, s, p) && Code(b, p) && WordStart(b, p)
    && Word(b, p, e) == INSTRUMENT && !InFields(b, s, e, p)
  }

  ghost predicate TopFields(b: bytes, s: nat, e: nat, p: nat, open: nat, close: nat) {
    FieldsSite(b, s, e, p, open, close) && !InFields(b, s, e, p)
  }

  ghost predicate Instrumented(b: bytes, s: nat, e: nat) {
    exists p: nat :: InstrumentSite(b, s, e, p)
  }

  /** A balanced region that a closing bracket ends, such as an attribute body. */
  ghost predicate Bracketed(b: bytes, s: nat, e: nat) {
    Region(b, s, e) && e < |b| && IsCloser(b[e])
  }

  /** A group's delimiters lie inside the attribute, and everything word-like inside it closes inside it. */
  lemma FieldsSiteInside(b: bytes, s: nat, e: nat, p: nat, open: nat, close: nat)
    requires Bracketed(b, s, e) && FieldsSite(b, s, e, p, open, close)
    ensures p < open < close < e && Reach(b, s, open) && Reach(b, s, close) && Region(b, open + 1, close)
    ensures forall k {:trigger Reach(b, s, k)} :: p < k <= open && Reach(b, s, k) ==> !WordStart(b, k)
  {
    var j := NameEnd(b, p, e, false);
    WordAligned(b, s, p, e);
    ReachBetween(b, s, j, e);
    TriviaAligned(b, j, e);
    ReachTrans(b, s, j, open);
    assert open != e;
    var c := ClosesInside(b, s, e, open);
    MatchUnique(b, open, c, close);
    MatchedInside(b, open, close);
    forall k | p < k <= open && Reach(b, s, k) ensures !WordStart(b, k) {
      if j <= k < open {
        ReachBetween(b, s, j, k);
      }
    }
  }

  /** A group that a word before the closer `c` introduces opens before `c`. */
  lemma OpensBefore(b: bytes, s: nat, e: nat, p: nat, c: nat)
    requires s <= p < c < e <= |b| && Reach(b, s, p) && Code(b, p) && WordStart(b, p)
    requires Reach(b, s, c) && Reach(b, s, e) && IsCloser(b[c])
    ensures TriviaEnd(b, NameEnd(b, p, e, false), e) <= c
  {
    var j := NameEnd(b, p, e, false);
    WordAligned(b, s, p, e);
    assert j <= c;
    ReachBetween(b, s, j, e);
    ReachBetween(b, s, j, c);
    TriviaStops(b, j, e, c);
  }

  /** A `fields(...)` that starts inside another one's group ends inside it. */
  lemma FieldsNest(b: bytes, s: nat, e: nat, p: nat, open: nat, close: nat, p2: nat, open2: nat, close2: nat)
    requires Bracketed(b, s, e) && FieldsSite(b, s, e, p, open, close) && FieldsSite(b, s, e, p2, open2, close2)
    requires p < p2 <= close
    ensures close2 < close
  {
    FieldsSiteInside(b, s, e, p, open, close);
    FieldsSiteInside(b, s, e, p2, open2, close2);
    OpensBefore(b, s, e, p2, close);
    InnerCloses(b, s, open, close, open2, close2);
  }

  lemma InnerCloses(b: bytes, s: nat, open: nat, close: nat, open2: nat, close2: nat)
    requires open < |b| && IsOpener(b[open]) && Matches(b, open, close) && Reach(b, s, open)
    requires open < open2 <= close && Reach(b, s, open2) && IsOpener(b[open2]) && Matches(b, open2, close2)
    ensures close2 < close
  {
    MatchedInside(b, open, close);
    ReachBetween(b, s, open, open2);
    NoOvershoot(b, open, open2);
    var c := ClosesInside(b, open + 1, close, open2);
    MatchUnique(b, open2, c, close2);
  }

  // The word scan of an attribute body keeps, for the offset `i` it has reached,
  // which `fields(...)` groups and whether an `instrument` word lie before it.

  /** Each recorded group belongs to its recorded top-level `fields` word. */
  ghost predicate GroupsSound(b: bytes, s: nat, e: nat, sites: seq<nat>, groups: seq<(nat, nat)>) {
    && |sites| == |groups|
    && forall k :: 0 <= k < |sites| ==> TopFields(b, s, e, sites[k], groups[k].0, groups[k].1)
  }

  ghost predicate HasTop(b: bytes, s: nat, e: nat, p: nat) {
    exists open: nat, close: nat :: TopFields(b, s, e, p, open, close)
  }

  /** Every top-level `fields` word before `i` is recorded. */
  ghost predicate GroupsComplete(b: bytes, s: nat, e: nat, sites: seq<nat>, i: nat) {
    forall p: nat :: p < i && HasTop(b, s, e, p) ==> p in sites
  }

  ghost predicate InstrumentBefore(b: bytes, s: nat, e: nat, i: nat) {
    exists p: nat :: p < i && InstrumentSite(b, s, e, p)
  }

  /** No word starts strictly between `i` and `next`. */
  ghost predicate WordFree(b: bytes, s: nat, i: nat, next: nat) {
    forall k: nat {:trigger Reach(b, s, k)} :: i < k < next && Reach(b, s, k) ==> !WordStart(b, k)
  }

  /** A word's own group determines it. */
  lemma SiteUnique(b: bytes, s: nat, e: nat, p: nat, o1: nat, c1: nat, o2: nat, c2: nat)
    requires FieldsSite(b, s, e, p, o1, c1) && FieldsSite(b, s, e, p, o2, c2)
    ensures o1 == o2 && c1 == c2
  {
    MatchUnique(b, o1, c1, c2);
  }

  /** Moving past a word-free stretch that starts no group changes nothing. */
  lemma PassPlain(b: bytes, s: nat, e: nat, sites: seq<nat>, i: nat, next: nat)
    requires GroupsComplete(b, s, e, sites, i) && i < next && WordFree(b, s, i, next)
    requires !HasFields(b, s, e, i)
    requires !InFields(b, s, e, i)
    ensures GroupsComplete(b, s, e, sites, next) && !InFields(b, s, e, next)
    ensures InstrumentBefore(b, s, e, next) <==> InstrumentBefore(b, s, e, i) || InstrumentSite(b, s, e, i)
  {
    forall p: nat, open: nat, close: nat | FieldsSite(b, s, e, p, open, close) && p < next ensures p < i {
    }
  }

  /** Moving past a top-level group records it; nothing inside it counts. */
  lemma PassGroup(b: bytes, s: nat, e: nat, sites: seq<nat>, i: nat, open: nat, close: nat)
    requires Bracketed(b, s, e) && FieldsSite(b, s, e, i, open, close) && !InFields(b, s, e, i)
    requires GroupsComplete(b, s, e, sites, i)
    ensures GroupsComplete(b, s, e, sites + [i], close + 1)
    ensures !InFields(b, s, e, close + 1)
  {
    forall p: nat, o: nat, c: nat | FieldsSite(b, s, e, p, o, c) && p <= close
      ensures c <= close
      ensures i < p ==> InFields(b, s, e, p)
    {
      if p < i {
        assert c < i;
      } else if p == i {
        SiteUnique(b, s, e, p, o, c, open, close);
      } else {
        FieldsNest(b, s, e, i, open, close, p, o, c);
      }
    }
    forall p: nat | p < close + 1 && HasTop(b, s, e, p) ensures p in sites + [i] {
      assert p <= i;
    }
  }

  lemma PassGroupInstrument(b: bytes, s: nat, e: nat, i: nat, open: nat, close: nat)
    requires FieldsSite(b, s, e, i, open, close) && i < close
    ensures InstrumentBefore(b, s, e, close + 1) <==> InstrumentBefore(b, s, e, i)
  {
    assert |FIELDS| != |INSTRUMENT|;
    forall p: nat | p < close + 1 && InstrumentSite(b, s, e, p) ensures p < i {
      assert p != i;
      assert i < p <= close ==> InFields(b, s, e, p);
    }
  }

  /** The delimiters of the group after the word `i..j`, if the word is `fields` and has one. */
  method ReadGroup(b: bytes, s: nat, e: nat, i: nat, j: nat) returns (group: Option<(nat, nat)>)
    requires s <= i < e <= |b| && Reach(b, s, i) && Code(b, i) && WordStart(b, i) && j == NameEnd(b, i, e, false)
    ensures group.Some? ==> FieldsSite(b, s, e, i, group.value.0, group.value.1)
    ensures group.None? ==> !HasFields(b, s, e, i)
  {
    if b[i..j] != FIELDS {
      return None;
    }
    var open := SkipTrivia(b, j, e);
    if open >= |b| || b[open] != OPEN_PAREN {
      return None;
    }
    var close := MatchingClose(b, open);
    if close.None? {
      return None;
    }
    group := Some((open, close.value));
  }

  /** The word scan has reached boundary `i` and recorded exactly what lies before it. */
  ghost predicate Walked(b: bytes, s: nat, e: nat, i: nat, has: bool, sites: seq<nat>, groups: seq<(nat, nat)>) {
    && s <= i <= e && Reach(b, s, i) && !InFields(b, s, e, i)
    && (has <==> InstrumentBefore(b, s, e, i))
    && GroupsSound(b, s, e, sites, groups) && GroupsComplete(b, s, e, sites, i)
  }

  /** A token that is not a word. */
  lemma WalkToken(b: bytes, s: nat, e: nat, i: nat, has: bool, sites: seq<nat>, groups: seq<(nat, nat)>)
    requires Region(b, s, e) && i < e && Walked(b, s, e, i, has, sites, groups)
    requires !Code(b, i) || !WordStart(b, i)
    ensures Walked(b, s, e, Next(b, i), has, sites, groups)
  {
    ReachBetween(b, s, i, e);
    NoOvershoot(b, i, e);
    ReachStep(b, s, i);
    OnlyNext(b, s, i);
    PassPlain(b, s, e, sites, i, Next(b, i));
  }

  /** A word without a field group. */
  lemma WalkWord(b: bytes, s: nat, e: nat, i: nat, has: bool, sites: seq<nat>, groups: seq<(nat, nat)>)
    requires Region(b, s, e) && i < e && Walked(b, s, e, i, has, sites, groups)
    requires Code(b, i) && WordStart(b, i) && !HasFields(b, s, e, i)
    ensures i < NameEnd(b, i, e, false)
    ensures Walked(b, s, e, NameEnd(b, i, e, false), has || Word(b, i, e) == INSTRUMENT, sites, groups)
  {
    WordAligned(b, s, i, e);
    PassPlain(b, s, e, sites, i, NameEnd(b, i, e, false));
  }

  /** A word with a field group. */
  lemma WalkGroup(b: bytes, s: nat, e: nat, i: nat, has: bool, sites: seq<nat>, groups: seq<(nat, nat)>, open: nat,
                  close: nat)
    requires Bracketed(b, s, e) && i < e && Walked(b, s, e, i, has, sites, groups)
    requires FieldsSite(b, s, e, i, open, close)
    ensures i < close
    ensures Walked(b, s, e, close + 1, has, sites + [i], groups + [(open, close)])
  {
    FieldsSiteInside(b, s, e, i, open, close);
    ReachStep(b, s, close);
    PassGroup(b, s, e, sites, i, open, close);
    PassGroupInstrument(b, s, e, i, open, close);
    GroupsGrow(b, s, e, sites, groups, i, open, close);
  }

  lemma GroupsGrow(b: bytes, s: nat, e: nat, sites: seq<nat>, groups: seq<(nat, nat)>, p: nat, open: nat, close: nat)
    requires GroupsSound(b, s, e, sites, groups) && TopFields(b, s, e, p, open, close)
    ensures GroupsSound(b, s, e, sites + [p], groups + [(open, close)])
  {
  }

  lemma WalkStart(b: bytes, s: nat, e: nat)
    requires Region(b, s, e)
    ensures Walked(b, s, e, s, false, [], [])
  {
  }

  /** One word of the attribute body. */
  method WalkOneWord(b: bytes, s: nat, e: nat, i: nat, has: bool, groups: seq<(nat, nat)>, ghost sites: seq<nat>)
    returns (next: nat, has': bool, groups': seq<(nat, nat)>, ghost sites': seq<nat>)
    requires Bracketed(b, s, e) && i < e && Walked(b, s, e, i, has, sites, groups)
    requires Code(b, i) && WordStart(b, i)
    ensures i < next && Walked(b, s, e, next, has', sites', groups')
  {
    has', groups', sites' := has, groups, sites;
    var j := WalkName(b, i, e, false);
    var group := ReadGroup(b, s, e, i, j);
    if group.Some? {
      var (open, close) := group.value;
      WalkGroup(b, s, e, i, has, sites, groups, open, close);
      groups', sites' := groups + [(open, close)], sites + [i];
      next := close + 1;
    } else {
      WalkWord(b, s, e, i, has, sites, groups);
      has' := has || b[i..j] == INSTRUMENT;
      next := j;
    }
  }

  /** The attribute body's `instrument` flag and its top-level `fields(...)` groups. */
  method CollectGroups(b: bytes, s: nat, e: nat)
    returns (hasInstrument: bool, groups: seq<(nat, nat)>, ghost sites: seq<nat>)
    requires Bracketed(b, s, e)
    ensures Walked(b, s, e, e, hasInstrument, sites, groups)
  {
    hasInstrument, groups, sites := false, [], [];
    var i := s;
    WalkStart(b, s, e);
    while i < e
      invariant i <= e && Walked(b, s, e, i, hasInstrument, sites, groups)
      decreases e - i
    {
      var skip := SkipOpaque(b, i);
      if skip.Some? {
        WalkToken(b, s, e, i, hasInstrument, sites, groups);
        i := skip.value;
      } else if IsIdent(b[i]) && !IdentBefore(b, i) {
        i, hasInstrument, groups, sites := WalkOneWord(b, s, e, i, hasInstrument, groups, sites);
      } else {
        WalkToken(b, s, e, i, hasInstrument, sites, groups);
        i := i + 1;
      }
    }
  }

  // ----- the file -----

  /** A closed attribute `#[...]` at code offset `q`, ending at `c`. */
  ghost predicate AttrSite(b: bytes, q: nat, c: nat) {
    && q + 1 < |b| && Reach(b, 0, q) && Code(b, q) && b[q] == HASH && b[q + 1] == OPEN_BRACKET
    && Matches(b, q + 1, c)
  }

  ghost predicate HasAttr(b: bytes, q: nat) {
    exists c: nat :: AttrSite(b, q, c)
  }

  /** `x` lies inside the brackets of some attribute. */
  ghost predicate Covered(b: bytes, x: nat) {
    exists q: nat, c: nat :: AttrSite(b, q, c) && q < x <= c
  }

  /** A tracing macro invocation at code offset `p` with closed delimiters `open..close`. */
  ghost predicate MacroSite(b: bytes, p: nat, open: nat, close: nat) {
    && p < |b| && Reach(b, 0, p) && Code(b, p) && WordStart(b, p)
    && Word(b, p, |b|) in TRACING_MACROS
    && NameEnd(b, p, |b|, false) < |b| && b[NameEnd(b, p, |b|, false)] == BANG
    && open == TriviaEnd(b, NameEnd(b, p, |b|, false) + 1, |b|)
    && open < |b| && IsOpener(b[open]) && Matches(b, open, close)
  }

  ghost predicate HasMacro(b: bytes, p: nat) {
    exists open: nat, close: nat :: MacroSite(b, p, open, close)
  }

  /** The delimiters of an argument list handed to the field check, and whether it is a span macro's. */
  datatype ArgList = ArgList(open: nat, close: nat, spans: bool)

  ghost predicate MacroChecks(b: bytes, p: nat, r: ArgList) {
    MacroSite(b, p, r.open, r.close) && r.spans == IsSpanMacro(Word(b, p, |b|))
  }

  /** `r` is the group of the top-level `fields` word at `p` in the attribute body `s..e`. */
  ghost predicate AttrGroup(b: bytes, s: nat, e: nat, p: nat, r: ArgList) {
    TopFields(b, s, e, p, r.open, r.close) && !r.spans
  }

  ghost predicate BodyChecks(b: bytes, s: nat, e: nat, r: ArgList) {
    Instrumented(b, s, e) && exists p: nat :: AttrGroup(b, s, e, p, r)
  }

  ghost predicate AttrChecks(b: bytes, q: nat, r: ArgList) {
    exists c: nat :: AttrSite(b, q, c) && BodyChecks(b, q + 2, c, r)
  }

  /** The construct at `p`, outside attribute brackets, has `r` as an argument list to check. */
  ghost predicate SiteChecks(b: bytes, p: nat, r: ArgList) {
    !Covered(b, p) && (MacroChecks(b, p, r) || AttrChecks(b, p, r))
  }

  /** The scan must check `r`. */
  ghost predicate MustCheck(b: bytes, r: ArgList) {
    exists p: nat :: SiteChecks(b, p, r)
  }

  ghost predicate CheckedBefore(b: bytes, i: nat, r: ArgList) {
    exists p: nat :: p < i && SiteChecks(b, p, r)
  }

  /** No construct to check starts strictly between `i` and `next`. */
  ghost predicate SiteFree(b: bytes, i: nat, next: nat) {
    forall k: nat {:trigger Reach(b, 0, k)} :: i < k < next && k < |b| && Reach(b, 0, k) ==>
      Covered(b, k) || (!WordStart(b, k) && b[k] != HASH)
  }

  /** The file scan has reached `i`, outside attributes, having handed on exactly `lists`. */
  ghost predicate Scanned(b: bytes, i: nat, lists: seq<ArgList>) {
    && i <= |b| && Reach(b, 0, i) && !Covered(b, i)
    && forall r :: r in lists <==> CheckedBefore(b, i, r)
  }

  /** Jumping over a site-free stretch adds exactly what the construct at `i` has. */
  lemma SitesGrow(b: bytes, i: nat, next: nat, lists: seq<ArgList>, more: seq<ArgList>)
    requires i < next <= |b| && SiteFree(b, i, next)
    requires forall r :: r in lists <==> CheckedBefore(b, i, r)
    requires forall r :: r in more <==> SiteChecks(b, i, r)
    ensures forall r :: r in lists + more <==> CheckedBefore(b, next, r)
  {
    forall r ensures CheckedBefore(b, next, r) <==> CheckedBefore(b, i, r) || SiteChecks(b, i, r) {
      if CheckedBefore(b, next, r) {
        CheckedBack(b, i, next, r);
      }
    }
  }

  lemma CheckedBack(b: bytes, i: nat, next: nat, r: ArgList)
    requires SiteFree(b, i, next) && CheckedBefore(b, next, r)
    ensures CheckedBefore(b, i, r) || SiteChecks(b, i, r)
  {
    hide Word, Matches, OpaqueEnd, Net;
    var p: nat :| p < next && SiteChecks(b, p, r);
    assert p < |b| && Reach(b, 0, p) && (WordStart(b, p) || b[p] == HASH);
  }

  /** Outside attributes at `i`, and no attribute from there on reaches past `next`. */
  lemma StaysUncovered(b: bytes, i: nat, next: nat)
    requires !Covered(b, i) && i <= next
    requires forall q: nat, c: nat :: AttrSite(b, q, c) && i <= q < next ==> c < next
    ensures !Covered(b, next)
  {
  }

  /** A token that starts neither a word nor a closed attribute. */
  lemma ScanToken(b: bytes, i: nat, lists: seq<ArgList>)
    requires i < |b| && Scanned(b, i, lists)
    requires !Code(b, i) || (!WordStart(b, i) && !HasAttr(b, i))
    ensures Scanned(b, Next(b, i), lists)
  {
    var next := Next(b, i);
    ReachStep(b, 0, i);
    OnlyNext(b, 0, i);
    assert NoAttrIn(b, i, next);
    SitesGrow(b, i, next, lists, []);
    assert lists + [] == lists;
  }

  ghost predicate NoAttrIn(b: bytes, i: nat, next: nat) {
    forall q: nat, c: nat :: i <= q < next ==> !AttrSite(b, q, c)
  }

  /** A word that is not a tracing macro with closed delimiters. */
  lemma ScanWord(b: bytes, i: nat, lists: seq<ArgList>)
    requires i < |b| && Scanned(b, i, lists) && Code(b, i) && WordStart(b, i) && !HasMacro(b, i)
    ensures i < NameEnd(b, i, |b|, false) && Scanned(b, NameEnd(b, i, |b|, false), lists)
  {
    var next := NameEnd(b, i, |b|, false);
    WordAligned(b, 0, i, |b|);
    assert NoAttrIn(b, i, next);
    SitesGrow(b, i, next, lists, []);
    assert lists + [] == lists;
  }

  /** The opening delimiter of a macro is aligned, and only trivia follows the exclamation mark. */
  lemma MacroGap(b: bytes, t: nat, open: nat)
    requires t <= |b| && Reach(b, 0, t) && open == TriviaEnd(b, t, |b|)
    ensures t <= open <= |b| && Reach(b, 0, open)
    ensures forall k: nat {:trigger Reach(b, 0, k)} :: t <= k < open && Reach(b, 0, k) ==>
              !WordStart(b, k) && b[k] != HASH
  {
    EndReached(b, 0);
    ReachBetween(b, 0, t, |b|);
    TriviaAligned(b, t, |b|);
    ReachTrans(b, 0, t, open);
    forall k: nat | t <= k < open && Reach(b, 0, k) ensures !WordStart(b, k) && b[k] != HASH {
      ReachBetween(b, 0, t, k);
    }
  }

  /** Between a macro's name and its opening delimiter no construct starts. */
  lemma MacroHead(b: bytes, p: nat, open: nat, close: nat)
    requires MacroSite(b, p, open, close)
    ensures p < open < close && Reach(b, 0, open) && QuietGap(b, p, open)
  {
    hide OpaqueEnd, Word, Net;
    var j := NameEnd(b, p, |b|, false);
    WordAligned(b, 0, p, |b|);
    assert Reach(b, 0, j) && !WordStart(b, j);
    BangStep(b, j);
    BangGap(b, p, j, open);
  }

  lemma BangGap(b: bytes, p: nat, j: nat, open: nat)
    requires p < j < |b| && Reach(b, 0, j + 1) && open == TriviaEnd(b, j + 1, |b|) && open < |b| && IsOpener(b[open])
    requires b[j] == BANG && forall k: nat {:trigger WordStart(b, k)} :: p < k < j ==> !WordStart(b, k) && b[k] != HASH
    ensures p < open && Reach(b, 0, open) && QuietGap(b, p, open)
  {
    MacroGap(b, j + 1, open);
  }

  lemma BangStep(b: bytes, j: nat)
    requires j < |b| && b[j] == BANG && Reach(b, 0, j)
    ensures Reach(b, 0, j + 1)
  {
    ReachStep(b, 0, j);
  }

  /** No word and no attribute starts after `p` up to `open`. */
  ghost predicate QuietGap(b: bytes, p: nat, open: nat) {
    && open < |b|
    && forall k: nat {:trigger Reach(b, 0, k)} :: p < k <= open && Reach(b, 0, k) ==>
         !WordStart(b, k) && b[k] != HASH
  }

  lemma MacroRegion(b: bytes, p: nat, open: nat, close: nat)
    requires MacroSite(b, p, open, close)
    ensures Region(b, open + 1, close)
  {
    MatchedInside(b, open, close);
  }

  /** The tokenization always arrives at the end of the input. */
  lemma {:induction false} EndReached(b: bytes, i: nat)
    requires i <= |b|
    ensures Reach(b, i, |b|)
    decreases |b| - i
  {
    if i < |b| {
      EndReached(b, Next(b, i));
    }
  }

  /** A tracing macro hands on its argument list; scanning resumes inside it. */
  lemma ScanMacro(b: bytes, i: nat, lists: seq<ArgList>, open: nat, close: nat)
    requires Scanned(b, i, lists) && MacroSite(b, i, open, close)
    ensures i < open < close < |b|
    ensures Scanned(b, open + 1, lists + [ArgList(open, close, IsSpanMacro(Word(b, i, |b|)))])
  {
    MacroHead(b, i, open, close);
    MacroStep(b, i, open, close);
    var r := ArgList(open, close, IsSpanMacro(Word(b, i, |b|)));
    MacroHasOneList(b, i, r, open, close);
    SitesGrow(b, i, open + 1, lists, [r]);
  }

  lemma MacroStep(b: bytes, i: nat, open: nat, close: nat)
    requires MacroSite(b, i, open, close) && i < open < close && Reach(b, 0, open) && !Covered(b, i)
    requires QuietGap(b, i, open)
    ensures Reach(b, 0, open + 1) && SiteFree(b, i, open + 1) && !Covered(b, open + 1)
  {
    ReachStep(b, 0, open);
    assert NoAttrIn(b, i, open + 1);
  }

  lemma MacroHasOneList(b: bytes, i: nat, r: ArgList, open: nat, close: nat)
    requires MacroSite(b, i, open, close) && !Covered(b, i)
    requires r == ArgList(open, close, IsSpanMacro(Word(b, i, |b|)))
    ensures forall x :: x in [r] <==> SiteChecks(b, i, x)
  {
    forall x ensures x == r <==> SiteChecks(b, i, x) {
      if SiteChecks(b, i, x) {
        assert MacroChecks(b, i, x);
        MatchUnique(b, open, close, x.close);
      }
    }
  }

  /** An attribute that starts inside another one's brackets ends inside them. */
  lemma AttrsNest(b: bytes, i: nat, close: nat, q: nat, c: nat)
    requires AttrSite(b, i, close) && AttrSite(b, q, c) && i < q <= close
    ensures c < close
  {
    ReachStep(b, 0, i);
    ReachStep(b, 0, q);
    assert q + 1 <= close;
    InnerCloses(b, 0, i + 1, close, q + 1, c);
  }

  lemma AttrBody(b: bytes, q: nat, c: nat)
    requires AttrSite(b, q, c)
    ensures q + 2 <= c < |b| && Bracketed(b, q + 2, c) && Reach(b, 0, c)
  {
    ReachStep(b, 0, q);
    MatchedInside(b, q + 1, c);
    ReachTrans(b, 0, q + 1, c);
  }

  lemma AttrStep(b: bytes, i: nat, c: nat)
    requires AttrSite(b, i, c) && !Covered(b, i)
    ensures i < c < |b| && Reach(b, 0, c + 1) && SiteFree(b, i, c + 1) && !Covered(b, c + 1)
  {
    AttrBody(b, i, c);
    ReachStep(b, 0, c);
    forall q: nat, d: nat | AttrSite(b, q, d) && i <= q < c + 1 ensures d < c + 1 {
      if q == i {
        MatchUnique(b, i + 1, c, d);
      } else {
        AttrsNest(b, i, c, q, d);
      }
    }
    StaysUncovered(b, i, c + 1);
  }

  /** The groups of an attribute body as argument lists. */
  function AsLists(groups: seq<(nat, nat)>): (lists: seq<ArgList>)
    ensures |lists| == |groups|
    ensures forall k :: 0 <= k < |lists| ==> lists[k] == ArgList(groups[k].0, groups[k].1, false)
  {
    seq(|groups|, k requires 0 <= k < |groups| => ArgList(groups[k].0, groups[k].1, false))
  }

  /** What the word scan of an attribute body records is exactly what it must check. */
  lemma BodyLists(b: bytes, s: nat, e: nat, has: bool, sites: seq<nat>, groups: seq<(nat, nat)>)
    requires Bracketed(b, s, e) && Walked(b, s, e, e, has, sites, groups)
    ensures forall r :: r in (if has then AsLists(groups) else []) <==> BodyChecks(b, s, e, r)
  {
    InstrumentIff(b, s, e, has);
    forall r ensures r in AsLists(groups) <==> exists p: nat :: AttrGroup(b, s, e, p, r) {
      GroupListed(b, s, e, sites, groups, r);
    }
  }

  lemma InstrumentIff(b: bytes, s: nat, e: nat, has: bool)
    requires has <==> InstrumentBefore(b, s, e, e)
    ensures has <==> Instrumented(b, s, e)
  {
    if p: nat :| InstrumentSite(b, s, e, p) {
      assert p < e;
    }
  }

  lemma GroupListed(b: bytes, s: nat, e: nat, sites: seq<nat>, groups: seq<(nat, nat)>, r: ArgList)
    requires GroupsSound(b, s, e, sites, groups) && GroupsComplete(b, s, e, sites, e)
    ensures r in AsLists(groups) <==> exists p: nat :: AttrGroup(b, s, e, p, r)
  {
    if r in AsLists(groups) {
      ListedIsGroup(b, s, e, sites, groups, r);
    }
    if p: nat :| AttrGroup(b, s, e, p, r) {
      GroupIsListed(b, s, e, sites, groups, r, p);
    }
  }

  lemma ListedIsGroup(b: bytes, s: nat, e: nat, sites: seq<nat>, groups: seq<(nat, nat)>, r: ArgList)
    requires GroupsSound(b, s, e, sites, groups) && r in AsLists(groups)
    ensures exists p: nat :: AttrGroup(b, s, e, p, r)
  {
    var lists := AsLists(groups);
    var k :| 0 <= k < |lists| && lists[k] == r;
    assert AttrGroup(b, s, e, sites[k], r);
  }

  lemma GroupIsListed(b: bytes, s: nat, e: nat, sites: seq<nat>, groups: seq<(nat, nat)>, r: ArgList, p: nat)
    requires GroupsSound(b, s, e, sites, groups) && GroupsComplete(b, s, e, sites, e) && AttrGroup(b, s, e, p, r)
    ensures r in AsLists(groups)
  {
    assert p < e && HasTop(b, s, e, p);
    var k :| 0 <= k < |sites| && sites[k] == p;
    SiteUnique(b, s, e, p, r.open, r.close, groups[k].0, groups[k].1);
    assert AsLists(groups)[k] == r;
  }

  lemma ScanAttr(b: bytes, i: nat, c: nat, lists: seq<ArgList>, more: seq<ArgList>)
    requires Scanned(b, i, lists) && AttrSite(b, i, c)
    requires forall r :: r in more <==> BodyChecks(b, i + 2, c, r)
    ensures i < c < |b| && Scanned(b, c + 1, lists + more)
  {
    AttrStep(b, i, c);
    forall r ensures SiteChecks(b, i, r) <==> BodyChecks(b, i + 2, c, r) {
      AttrChecksIff(b, i, c, r);
    }
    SitesGrow(b, i, c + 1, lists, more);
  }

  lemma AttrChecksIff(b: bytes, i: nat, c: nat, r: ArgList)
    requires AttrSite(b, i, c)
    ensures !MacroChecks(b, i, r)
    ensures AttrChecks(b, i, r) <==> BodyChecks(b, i + 2, c, r)
  {
    hide BodyChecks, Matches, OpaqueEnd, Word, TriviaEnd, Net;
    if d: nat :| AttrSite(b, i, d) && BodyChecks(b, i + 2, d, r) {
      MatchUnique(b, i + 1, c, d);
    }
  }

  // ----- running the checks -----

  ghost predicate ListsFit(b: bytes, lists: seq<ArgList>) {
    forall k :: 0 <= k < |lists| ==> Region(b, lists[k].open + 1, lists[k].close)
  }

  /** The argument list `r` reports offset `at` under `key`. */
  ghost predicate ListFlags(b: bytes, keys: seq<bytes>, r: ArgList, at: nat, key: bytes) {
    r.open < r.close <= |b| && Flags(b, keys, r.open + 1, r.close, r.spans, at, key)
  }

  ghost predicate ListFinds(b: bytes, keys: seq<bytes>, r: ArgList, f: Finding) {
    exists at: nat :: ListFlags(b, keys, r, at, f.key) && Shows(b, at, f)
  }

  /** Some list reports `f`. */
  ghost predicate AnyFinds(b: bytes, keys: seq<bytes>, lists: seq<ArgList>, f: Finding) {
    exists r :: r in lists && ListFinds(b, keys, r, f)
  }

  ghost predicate Reported(b: bytes, keys: seq<bytes>, lists: seq<ArgList>, out: seq<Finding>) {
    forall f :: f in out <==> AnyFinds(b, keys, lists, f)
  }

  /** Check one argument list. */
  method CheckList(b: bytes, lines: seq<bytes>, keys: seq<bytes>, r: ArgList, out0: seq<Finding>)
    returns (out: seq<Finding>)
    requires lines == Lines(b) && Region(b, r.open + 1, r.close)
    ensures forall f :: f in out <==> f in out0 || ListFinds(b, keys, r, f)
  {
    out := CheckArgs(b, lines, keys, r.open + 1, r.close, r.spans, out0);
    forall f ensures ListReports(b, keys, r.open + 1, r.close, r.spans, f) <==> ListFinds(b, keys, r, f) {
      SameFinds(b, keys, r, f);
    }
  }

  lemma SameFinds(b: bytes, keys: seq<bytes>, r: ArgList, f: Finding)
    requires r.open < r.close <= |b|
    ensures ListReports(b, keys, r.open + 1, r.close, r.spans, f) <==> ListFinds(b, keys, r, f)
  {
    hide Flags, Shows;
    if ListReports(b, keys, r.open + 1, r.close, r.spans, f) {
      var at: nat :| Flags(b, keys, r.open + 1, r.close, r.spans, at, f.key) && Shows(b, at, f);
      assert ListFlags(b, keys, r, at, f.key);
    }
    if ListFinds(b, keys, r, f) {
      var at: nat :| ListFlags(b, keys, r, at, f.key) && Shows(b, at, f);
      assert Flags(b, keys, r.open + 1, r.close, r.spans, at, f.key);
    }
  }

  lemma ReportedGrows(b: bytes, keys: seq<bytes>, lists: seq<ArgList>, r: ArgList, out0: seq<Finding>,
                      out: seq<Finding>)
    requires Reported(b, keys, lists, out0)
    requires forall f :: f in out <==> f in out0 || ListFinds(b, keys, r, f)
    ensures Reported(b, keys, lists + [r], out)
  {
    forall f ensures AnyFinds(b, keys, lists + [r], f) <==> AnyFinds(b, keys, lists, f) || ListFinds(b, keys, r, f) {
      assert r in lists + [r];
      assert forall x :: x in lists ==> x in lists + [r];
    }
  }

  method CheckGroups(b: bytes, lines: seq<bytes>, keys: seq<bytes>, ghost lists: seq<ArgList>, more: seq<ArgList>,
                     out0: seq<Finding>)
    returns (out: seq<Finding>)
    requires lines == Lines(b) && ListsFit(b, more) && Reported(b, keys, lists, out0)
    ensures Reported(b, keys, lists + more, out)
  {
    out := out0;
    var k := 0;
    assert lists + more[..0] == lists;
    while k < |more|
      invariant 0 <= k <= |more|
      invariant Reported(b, keys, lists + more[..k], out)
    {
      out := CheckOne(b, lines, keys, more[k], lists + more[..k], out);
      assert lists + more[..k] + [more[k]] == lists + more[..k + 1];
      k := k + 1;
    }
    assert more[..k] == more;
  }

  /** The lists of an attribute body that holds `instrument`, and nothing otherwise. */
  method ReadAttribute(b: bytes, s: nat, e: nat) returns (more: seq<ArgList>)
    requires Bracketed(b, s, e)
    ensures ListsFit(b, more) && forall r :: r in more <==> BodyChecks(b, s, e, r)
  {
    ghost var sites: seq<nat>;
    var has, groups;
    has, groups, sites := CollectGroups(b, s, e);
    BodyLists(b, s, e, has, sites, groups);
    GroupsAreRegions(b, s, e, sites, groups);
    more := if has then AsLists(groups) else [];
  }

  lemma GroupsAreRegions(b: bytes, s: nat, e: nat, sites: seq<nat>, groups: seq<(nat, nat)>)
    requires Bracketed(b, s, e) && GroupsSound(b, s, e, sites, groups)
    ensures ListsFit(b, AsLists(groups))
  {
    forall k | 0 <= k < |groups| ensures Region(b, AsLists(groups)[k].open + 1, groups[k].1) {
      GroupIsRegion(b, s, e, sites[k], groups[k].0, groups[k].1);
    }
  }

  lemma GroupIsRegion(b: bytes, s: nat, e: nat, p: nat, open: nat, close: nat)
    requires Bracketed(b, s, e) && TopFields(b, s, e, p, open, close)
    ensures Region(b, open + 1, close)
  {
    FieldsSiteInside(b, s, e, p, open, close);
  }

  /** The delimiters of the tracing macro whose name is `i..j`, if it is one and they close. */
  method ReadMacro(b: bytes, i: nat, j: nat) returns (site: Option<(nat, nat)>)
    requires i < |b| && Reach(b, 0, i) && Code(b, i) && WordStart(b, i) && j == NameEnd(b, i, |b|, false)
    ensures site.Some? ==> MacroSite(b, i, site.value.0, site.value.1)
    ensures site.None? ==> !HasMacro(b, i)
  {
    hide OpaqueEnd, Net, NameEnd, TriviaEnd, Reach, PositiveTo;
    if b[i..j] !in TRACING_MACROS || j >= |b| || b[j] != BANG {
      return None;
    }
    var open := SkipTrivia(b, j + 1, |b|);
    if open >= |b| || !IsOpener(b[open]) {
      return None;
    }
    var close := MatchingClose(b, open);
    if close.None? {
      return None;
    }
    site := Some((open, close.value));
  }

  /** One word of the file, with the check of its arguments when it is a tracing macro. */
  method ScanOneWord(b: bytes, lines: seq<bytes>, keys: seq<bytes>, i: nat, ghost lists: seq<ArgList>,
                     out0: seq<Finding>)
    returns (next: nat, out: seq<Finding>, ghost lists': seq<ArgList>)
    requires i < |b| && lines == Lines(b) && Scanned(b, i, lists) && Code(b, i) && WordStart(b, i)
    requires Reported(b, keys, lists, out0)
    ensures i < next && Scanned(b, next, lists')
    ensures Reported(b, keys, lists', out)
  {
    hide Reported, MacroSite, HasMacro, IsSpanMacro, OpaqueEnd;
    var j := WalkName(b, i, |b|, false);
    var site := ReadMacro(b, i, j);
    if site.None? {
      ScanWord(b, i, lists);
      return j, out0, lists;
    }
    var (open, close) := site.value;
    ScanMacro(b, i, lists, open, close);
    var r := ArgList(open, close, IsSpanMacro(b[i..j]));
    out := CheckMacro(b, lines, keys, i, r, lists, out0);
    next, lists' := open + 1, lists + [r];
  }

  method CheckMacro(b: bytes, lines: seq<bytes>, keys: seq<bytes>, ghost i: nat, r: ArgList,
                    ghost lists: seq<ArgList>, out0: seq<Finding>)
    returns (out: seq<Finding>)
    requires lines == Lines(b) && MacroSite(b, i, r.open, r.close) && Reported(b, keys, lists, out0)
    ensures Reported(b, keys, lists + [r], out)
  {
    MacroRegion(b, i, r.open, r.close);
    out := CheckOne(b, lines, keys, r, lists, out0);
  }

  method CheckOne(b: bytes, lines: seq<bytes>, keys: seq<bytes>, r: ArgList, ghost lists: seq<ArgList>,
                  out0: seq<Finding>)
    returns (out: seq<Finding>)
    requires lines == Lines(b) && Region(b, r.open + 1, r.close) && Reported(b, keys, lists, out0)
    ensures Reported(b, keys, lists + [r], out)
  {
    out := CheckList(b, lines, keys, r, out0);
    ReportedGrows(b, keys, lists, r, out0, out);
  }

  /** The closed attribute at `i`, if there is one, checked and skipped. */
  method ScanOneAttribute(b: bytes, lines: seq<bytes>, keys: seq<bytes>, i: nat, c: nat, ghost lists: seq<ArgList>,
                          out0: seq<Finding>)
    returns (out: seq<Finding>, ghost lists': seq<ArgList>)
    requires lines == Lines(b) && Scanned(b, i, lists) && AttrSite(b, i, c)
    requires Reported(b, keys, lists, out0)
    ensures i < c && Scanned(b, c + 1, lists')
    ensures Reported(b, keys, lists', out)
  {
    AttrBody(b, i, c);
    var more := ReadAttribute(b, i + 2, c);
    out := CheckGroups(b, lines, keys, lists, more, out0);
    ScanAttr(b, i, c, lists, more);
    lists' := lists + more;
  }

  /** The match of the bracket after a `#`, when this is an attribute that closes. */
  method ReadAttr(b: bytes, i: nat) returns (close: Option<nat>)
    requires i < |b| && Reach(b, 0, i) && Code(b, i)
    ensures close.Some? ==> AttrSite(b, i, close.value)
    ensures close.None? ==> !HasAttr(b, i)
  {
    close := None;
    if b[i] == HASH && i + 1 < |b| && b[i + 1] == OPEN_BRACKET {
      close := MatchingClose(b, i + 1);
    }
  }

  /**
   Scan one file. The argument lists it checks are exactly those of the tracing
   macros and instrument attributes that start at code offsets outside attribute
   brackets; the findings are exactly what those lists report, sorted, each once.
   */
  method ScanSource(b: bytes, keys: seq<bytes>) returns (out: seq<Finding>, ghost lists: seq<ArgList>)
    ensures forall r :: r in lists <==> MustCheck(b, r)
    ensures forall f :: f in out <==> InReport(b, keys, f)
    ensures Increasing(out)
  {
    var lines := Lines(b);
    var found: seq<Finding> := [];
    lists := [];
    var i := 0;
    ScanStart(b);
    while i < |b|
      invariant i <= |b| && Scanned(b, i, lists)
      invariant Reported(b, keys, lists, found)
      decreases |b| - i
    {
      var skip := SkipOpaque(b, i);
      if skip.Some? {
        ScanToken(b, i, lists);
        i := skip.value;
        continue;
      }
      var close := ReadAttr(b, i);
      if close.Some? {
        found, lists := ScanOneAttribute(b, lines, keys, i, close.value, lists, found);
        i := close.value + 1;
      } else if IsIdent(b[i]) && !IdentBefore(b, i) {
        i, found, lists := ScanOneWord(b, lines, keys, i, lists, found);
      } else {
        ScanToken(b, i, lists);
        i := i + 1;
      }
    }
    ScanEnd(b, lists);
    out := SortUnique(found);
    forall f ensures AnyFinds(b, keys, lists, f) <==> InReport(b, keys, f) {
    }
  }

  lemma ScanStart(b: bytes)
    ensures Scanned(b, 0, [])
  {
  }

  lemma ScanEnd(b: bytes, lists: seq<ArgList>)
    requires Scanned(b, |b|, lists)
    ensures forall r :: r in lists <==> MustCheck(b, r)
  {
    forall r ensures CheckedBefore(b, |b|, r) <==> MustCheck(b, r) {
      if p: nat :| SiteChecks(b, p, r) {
        assert p < |b|;
      }
    }
  }

  // ----- ordered output -----

  predicate KeyLess(x: bytes, y: bytes) {
    if y == [] then false
    else if x == [] then true
    else x[0] < y[0] || (x[0] == y[0] && KeyLess(x[1..], y[1..]))
  }

  /** The order of the output: by line, then by key bytes. */
  predicate Before(f: Finding, g: Finding) {
    f.line < g.line || (f.line == g.line && KeyLess(f.key, g.key))
  }

  ghost predicate Increasing(s: seq<Finding>) {
    forall i, j :: 0 <= i < j < |s| ==> Before(s[i], s[j])
  }

  lemma {:induction false} KeyLessTotal(x: bytes, y: bytes)
    ensures KeyLess(x, y) || x == y || KeyLess(y, x)
  {
    if x != [] && y != [] && x[0] == y[0] {
      KeyLessTotal(x[1..], y[1..]);
      assert x == [x[0]] + x[1..] && y == [y[0]] + y[1..];
    }
  }

  lemma {:induction false} KeyLessTrans(x: bytes, y: bytes, z: bytes)
    requires KeyLess(x, y) && KeyLess(y, z)
    ensures KeyLess(x, z)
  {
    if x != [] && x[0] == y[0] == z[0] {
      KeyLessTrans(x[1..], y[1..], z[1..]);
    }
  }

  /** The keys agree up to `k`, where `x` ends or holds the smaller byte. */
  ghost predicate FirstLess(x: bytes, y: bytes, k: nat) {
    k <= |x| && k < |y| && x[..k] == y[..k] && (k < |x| ==> x[k] < y[k])
  }

  lemma {:induction false} KeyLessIff(x: bytes, y: bytes)
    ensures KeyLess(x, y) <==> exists k: nat :: FirstLess(x, y, k)
  {
    if x == [] || y == [] || x[0] != y[0] {
      assert FirstLess(x, y, 0) <==> KeyLess(x, y);
      forall k: nat | k > 0 ensures !FirstLess(x, y, k) {
        if FirstLess(x, y, k) {
          assert false;
        }
      }
    } else {
      var u, v := x[1..], y[1..];
      KeyLessIff(u, v);
      forall k: nat ensures FirstLess(u, v, k) <==> FirstLess(x, y, k + 1) {
        ShiftLess(x, y, k);
      }
      if k: nat :| FirstLess(x, y, k) {
        assert k > 0 && FirstLess(u, v, k - 1);
      }
      if k: nat :| FirstLess(u, v, k) {
        assert FirstLess(x, y, k + 1);
      }
    }
  }

  lemma ShiftLess(x: bytes, y: bytes, k: nat)
    requires x != [] && y != [] && x[0] == y[0]
    ensures FirstLess(x[1..], y[1..], k) <==> FirstLess(x, y, k + 1)
  {
    if k <= |x| - 1 && k <= |y| - 1 {
      assert x[..k + 1] == [x[0]] + x[1..][..k];
      assert y[..k + 1] == [y[0]] + y[1..][..k];
      if x[..k + 1] == y[..k + 1] {
        assert x[..k + 1][1..] == x[1..][..k];
        assert y[..k + 1][1..] == y[1..][..k];
      }
    }
  }

  /** Place one finding into an increasing sequence, once. */
  method Place(f: Finding, s: seq<Finding>) returns (r: seq<Finding>)
    requires Increasing(s)
    ensures Increasing(r)
    ensures forall x :: x in r <==> x == f || x in s
  {
    var i := 0;
    while i < |s| && Before(s[i], f)
      invariant 0 <= i <= |s|
      invariant forall k :: 0 <= k < i ==> Before(s[k], f)
    {
      i := i + 1;
    }
    if i < |s| && s[i] == f {
      return s;
    }
    r := s[..i] + [f] + s[i..];
    forall k | i <= k < |s| ensures Before(f, s[k]) {
      KeyLessTotal(f.key, s[i].key);
      if k > i && f.line == s[i].line == s[k].line {
        KeyLessTrans(f.key, s[i].key, s[k].key);
      }
    }
    assert s == s[..i] + s[i..];
  }

  /** Sort and drop repeats. */
  method SortUnique(found: seq<Finding>) returns (r: seq<Finding>)
    ensures Increasing(r)
    ensures forall f :: f in r <==> f in found
  {
    r := [];
    var k := 0;
    while k < |found|
      invariant 0 <= k <= |found| && Increasing(r)
      invariant forall f :: f in r <==> f in found[..k]
    {
      r := Place(found[k], r);
      assert found[..k + 1] == found[..k] + [found[k]];
      k := k + 1;
    }
    assert found[..k] == found;
  }

  // ----- what the scan guarantees -----

  /** `key` is reported at offset `at` of the file. */
  ghost predicate FlaggedAt(b: bytes, keys: seq<bytes>, at: nat, key: bytes) {
    exists r :: MustCheck(b, r) && ListFlags(b, keys, r, at, key)
  }

  /** `f` belongs to the file's report. */
  ghost predicate InReport(b: bytes, keys: seq<bytes>, f: Finding) {
    exists r :: MustCheck(b, r) && ListFinds(b, keys, r, f)
  }

  lemma ListAligned(b: bytes, r: ArgList)
    requires MustCheck(b, r)
    ensures Region(b, r.open + 1, r.close) && Reach(b, 0, r.open + 1)
  {
    hide MacroSite, AttrChecks, Covered, Word, IsSpanMacro, Region, Reach;
    var p: nat :| SiteChecks(b, p, r);
    if MacroChecks(b, p, r) {
      MacroRegion(b, p, r.open, r.close);
      MacroOpenReached(b, p, r.open, r.close);
    } else {
      AttrListAligned(b, p, r);
    }
  }

  lemma MacroOpenReached(b: bytes, p: nat, open: nat, close: nat)
    requires MacroSite(b, p, open, close)
    ensures Reach(b, 0, open + 1)
  {
    hide Word;
    MacroHead(b, p, open, close);
    OpenerStep(b, 0, open);
  }

  lemma AttrListAligned(b: bytes, q: nat, r: ArgList)
    requires AttrChecks(b, q, r)
    ensures Region(b, r.open + 1, r.close) && Reach(b, 0, r.open + 1)
  {
    hide Word, BodyChecks, Region, Net;
    var c: nat :| AttrSite(b, q, c) && BodyChecks(b, q + 2, c, r);
    AttrBody(b, q, c);
    BodyStartReached(b, q, c);
    BodyListAligned(b, q + 2, c, r);
    ReachTrans(b, 0, q + 2, r.open + 1);
  }

  lemma BodyListAligned(b: bytes, s: nat, e: nat, r: ArgList)
    requires Bracketed(b, s, e) && BodyChecks(b, s, e, r)
    ensures Region(b, r.open + 1, r.close) && Reach(b, s, r.open + 1)
  {
    var g: nat :| AttrGroup(b, s, e, g, r);
    GroupAlignedInBody(b, s, e, g, r);
  }

  lemma BodyStartReached(b: bytes, q: nat, c: nat)
    requires AttrSite(b, q, c)
    ensures Reach(b, 0, q + 2)
  {
    ReachStep(b, 0, q);
    ReachStep(b, 0, q + 1);
  }

  lemma GroupAlignedInBody(b: bytes, s: nat, e: nat, g: nat, r: ArgList)
    requires Bracketed(b, s, e) && AttrGroup(b, s, e, g, r)
    ensures Region(b, r.open + 1, r.close) && Reach(b, s, r.open + 1)
  {
    FieldsSiteInside(b, s, e, g, r.open, r.close);
    OpenerStep(b, s, r.open);
  }

  lemma OpenerStep(b: bytes, s: nat, open: nat)
    requires open < |b| && IsOpener(b[open]) && Reach(b, s, open)
    ensures Reach(b, s, open + 1)
  {
    ReachStep(b, s, open);
  }

  /**
   Lexer alignment: every offset the scan reports is a boundary of the one
   tokenization from the start of the file, so nothing is reported from inside a
   literal or a comment.
   */
  lemma ReportsAreAligned(b: bytes, keys: seq<bytes>, at: nat, key: bytes)
    requires FlaggedAt(b, keys, at, key)
    ensures at < |b| && Reach(b, 0, at) && 1 <= LineOf(b, at) <= |Lines(b)|
  {
    var r :| MustCheck(b, r) && ListFlags(b, keys, r, at, key);
    ListAligned(b, r);
    var s := r.open + 1;
    FlagsAligned(b, keys, s, r.close, r.spans, at, key);
    ReachTrans(b, 0, s, at);
    LineIsListed(b, at);
  }

  /** What is reported for two key lists together is what each reports alone. */
  lemma KeysAreAdditive(b: bytes, k1: seq<bytes>, k2: seq<bytes>, at: nat, key: bytes)
    ensures FlaggedAt(b, k1 + k2, at, key) <==> FlaggedAt(b, k1, at, key) || FlaggedAt(b, k2, at, key)
  {
    forall r
      ensures ListFlags(b, k1 + k2, r, at, key) <==> ListFlags(b, k1, r, at, key) || ListFlags(b, k2, r, at, key)
    {
      ListAdditive(b, k1, k2, r, at, key);
    }
  }

  lemma ListAdditive(b: bytes, k1: seq<bytes>, k2: seq<bytes>, r: ArgList, at: nat, key: bytes)
    ensures ListFlags(b, k1 + k2, r, at, key) <==> ListFlags(b, k1, r, at, key) || ListFlags(b, k2, r, at, key)
  {
    if ListFlags(b, k1 + k2, r, at, key) {
      ListSplits(b, k1, k2, r, at, key);
    }
    if ListFlags(b, k1, r, at, key) || ListFlags(b, k2, r, at, key) {
      ListJoins(b, k1, k2, r, at, key);
    }
  }

  lemma ListSplits(b: bytes, k1: seq<bytes>, k2: seq<bytes>, r: ArgList, at: nat, key: bytes)
    requires ListFlags(b, k1 + k2, r, at, key)
    ensures ListFlags(b, k1, r, at, key) || ListFlags(b, k2, r, at, key)
  {
    if !ListFlags(b, k1, r, at, key) {
      SplitRest(b, k1, k2, r, at, key);
    }
  }

  lemma SplitRest(b: bytes, k1: seq<bytes>, k2: seq<bytes>, r: ArgList, at: nat, key: bytes)
    requires ListFlags(b, k1 + k2, r, at, key) && !ListFlags(b, k1, r, at, key)
    ensures ListFlags(b, k2, r, at, key)
  {
    var s := r.open + 1;
    var a: nat, z: nat :| Piece(b, s, r.close, a, z) && ArgFlags(b, k1 + k2, s, r.close, r.spans, a, z, at, key);
    ArgFlagsAdditive(b, k1, k2, s, r.close, r.spans, a, z, at, key);
  }

  lemma ListJoins(b: bytes, k1: seq<bytes>, k2: seq<bytes>, r: ArgList, at: nat, key: bytes)
    requires ListFlags(b, k1, r, at, key) || ListFlags(b, k2, r, at, key)
    ensures ListFlags(b, k1 + k2, r, at, key)
  {
    FlagsAdditive(b, k1, k2, r.open + 1, r.close, r.spans, at, key);
  }

  /** So the report for a split key list is the union of the two reports. */
  lemma ReportAdditive(b: bytes, k1: seq<bytes>, k2: seq<bytes>, f: Finding)
    ensures InReport(b, k1 + k2, f) <==> InReport(b, k1, f) || InReport(b, k2, f)
  {
    forall r ensures ListFinds(b, k1 + k2, r, f) <==> ListFinds(b, k1, r, f) || ListFinds(b, k2, r, f) {
      FindsAdditive(b, k1, k2, r, f);
    }
  }

  lemma FindsAdditive(b: bytes, k1: seq<bytes>, k2: seq<bytes>, r: ArgList, f: Finding)
    ensures ListFinds(b, k1 + k2, r, f) <==> ListFinds(b, k1, r, f) || ListFinds(b, k2, r, f)
  {
    forall at: nat
      ensures ListFlags(b, k1 + k2, r, at, f.key)
         <==> ListFlags(b, k1, r, at, f.key) || ListFlags(b, k2, r, at, f.key)
    {
      ListAdditive(b, k1, k2, r, at, f.key);
    }
  }

  /** A finding of the report comes from a flagged offset on its line. */
  lemma ReportMeansFlagged(b: bytes, keys: seq<bytes>, f: Finding)
    ensures InReport(b, keys, f) <==> exists at: nat :: FlaggedAt(b, keys, at, f.key) && Shows(b, at, f)
  {
    if InReport(b, keys, f) {
      var r :| MustCheck(b, r) && ListFinds(b, keys, r, f);
      var at: nat :| ListFlags(b, keys, r, at, f.key) && Shows(b, at, f);
      assert FlaggedAt(b, keys, at, f.key);
    }
    if at: nat :| FlaggedAt(b, keys, at, f.key) && Shows(b, at, f) {
      var r :| MustCheck(b, r) && ListFlags(b, keys, r, at, f.key);
      assert ListFinds(b, keys, r, f);
    }
  }
}
