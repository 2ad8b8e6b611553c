/**
 The trace layer over the span registry: a span, when it opens, joins the trace of
 its nearest exported ancestor or founds a new one; when it closes, it is exported.
 The registry keeps a span while it has children.
 */
module SpanTree {
  import opened Common
  import opened Sampling
  import TraceUploader

  type Span = TraceUploader.Span

  datatype Data = Data(traceId: string, spanId: string, parentSpanId: Option<string>)

  /** A registered span; `born` counts the spans registered before it. */
  datatype Node = Node(parent: Option<nat>, name: string, born: nat, data: Option<Data>)

  type Registry = map<nat, Node>

  /** `tagged` lists every span that ever got export data, oldest first. */
  datatype State = State(spans: Registry, births: nat, tagged: seq<Data>, exported: seq<Span>)

  const INITIAL: State := State(map[], 0, [], [])

  datatype Event =
    | New(id: nat, parent: Option<nat>, name: string, freshTrace: string, freshSpan: string)
    | Close(id: nat)

  /** Parents are registered and older. */
  ghost predicate Rooted(spans: Registry) {
    forall id :: id in spans && spans[id].parent.Some? ==>
      spans[id].parent.value in spans && spans[spans[id].parent.value].born < spans[id].born
  }

  predicate Known(spans: Registry, at: Option<nat>) {
    at.Some? ==> at.value in spans
  }

  /** The export data nearest to `at` on the way up, `at` included. */
  ghost function Nearest(spans: Registry, at: Option<nat>): Option<Data>
    requires Rooted(spans) && Known(spans, at)
    decreases if at.Some? then spans[at.value].born + 1 else 0
  {
    if at.None? then None
    else if spans[at.value].data.Some? then spans[at.value].data
    else Nearest(spans, spans[at.value].parent)
  }

  predicate HasChild(spans: Registry, id: nat) {
    exists c :: c in spans && spans[c].parent == Some(id)
  }

  /** Freshness is what the random generators are relied on for. */
  ghost predicate Enabled(s: State, e: Event) {
    match e
    case New(id, parent, _, freshTrace, freshSpan) =>
      && id !in s.spans && Known(s.spans, parent)
      && forall k :: 0 <= k < |s.tagged| ==> s.tagged[k].traceId != freshTrace && s.tagged[k].spanId != freshSpan
    case Close(id) => id in s.spans && !HasChild(s.spans, id)
  }

  /** What a new span inherits: its trace and its parent's span id. */
  function Inherit(near: Option<Data>, freshTrace: string): (string, Option<string>) {
    match near
    case Some(d) => (d.traceId, Some(d.spanId))
    case None => (freshTrace, None)
  }

  function Tag(cfg: Config, near: Option<Data>, name: string, freshTrace: string, freshSpan: string): Option<Data> {
    var (traceId, parentSpanId) := Inherit(near, freshTrace);
    if ShouldShip(cfg, name, traceId) then Some(Data(traceId, freshSpan, parentSpanId)) else None
  }

  function Register(s: State, id: nat, parent: Option<nat>, name: string, data: Option<Data>): State {
    s.(spans := s.spans[id := Node(parent, name, s.births, data)],
       births := s.births + 1,
       tagged := if data.Some? then s.tagged + [data.value] else s.tagged)
  }

  function ExportOf(name: string, d: Data): Span {
    TraceUploader.Span(d.traceId, d.spanId, d.parentSpanId, name)
  }

  function CloseStep(s: State, id: nat): State
    requires id in s.spans
  {
    var node := s.spans[id];
    s.(spans := s.spans - {id},
       exported := if node.data.Some? then s.exported + [ExportOf(node.name, node.data.value)] else s.exported)
  }

  ghost function Apply(cfg: Config, s: State, e: Event): State
    requires Rooted(s.spans) && Enabled(s, e)
  {
    match e
    case New(id, parent, name, freshTrace, freshSpan) =>
      Register(s, id, parent, name, Tag(cfg, Nearest(s.spans, parent), name, freshTrace, freshSpan))
    case Close(id) => CloseStep(s, id)
  }

  ghost function Exec(cfg: Config, run: seq<Event>): Option<State> {
    if run == [] then Some(INITIAL)
    else
      var before := Exec(cfg, run[..|run| - 1]);
      var e := run[|run| - 1];
      if before.Some? && Rooted(before.value.spans) && Enabled(before.value, e)
      then Some(Apply(cfg, before.value, e))
      else None
  }

  // ----- the invariant -----

  /** A span's data follow from its nearest exported ancestor and the export rules. */
  ghost predicate NodeOk(cfg: Config, spans: Registry, id: nat)
    requires Rooted(spans) && id in spans
  {
    var node := spans[id];
    match Nearest(spans, node.parent)
    case Some(p) =>
      && (node.data.Some? <==> ShouldShip(cfg, node.name, p.traceId))
      && (node.data.Some? ==> node.data.value.traceId == p.traceId && node.data.value.parentSpanId == Some(p.spanId))
    case None =>
      node.data.Some? ==> node.data.value.parentSpanId.None? && ShouldShip(cfg, node.name, node.data.value.traceId)
  }

  ghost predicate NodesOk(cfg: Config, s: State) {
    && Rooted(s.spans)
    && (forall id :: id in s.spans ==> s.spans[id].born < s.births)
    && (forall id :: id in s.spans ==> NodeOk(cfg, s.spans, id))
  }

  ghost predicate ParentListed(tagged: seq<Data>, i: nat)
    requires i < |tagged|
  {
    exists j :: 0 <= j < i && tagged[j].traceId == tagged[i].traceId && tagged[i].parentSpanId == Some(tagged[j].spanId)
  }

  /** The data ever handed out form trees: one parentless span a trace, parents before children. */
  ghost predicate Forest(tagged: seq<Data>) {
    && (forall i, j :: 0 <= i < j < |tagged| ==> tagged[i].spanId != tagged[j].spanId)
    && (forall i :: 0 <= i < |tagged| && tagged[i].parentSpanId.Some? ==> ParentListed(tagged, i))
    && (forall i, j :: 0 <= i < j < |tagged| && tagged[j].parentSpanId.None? ==> tagged[i].traceId != tagged[j].traceId)
  }

  predicate WasExported(exported: seq<Span>, spanId: string) {
    exists k :: 0 <= k < |exported| && exported[k].spanId == spanId
  }

  /** Live data are listed, not yet exported, and no two live spans share a span id. */
  ghost predicate LiveOk(s: State) {
    && (forall id :: id in s.spans && s.spans[id].data.Some? ==>
          s.spans[id].data.value in s.tagged && !WasExported(s.exported, s.spans[id].data.value.spanId))
    && DistinctLive(s.spans)
  }

  ghost predicate DistinctLive(spans: Registry) {
    forall x, y :: x in spans && y in spans && x != y && spans[x].data.Some? && spans[y].data.Some? ==>
      spans[x].data.value.spanId != spans[y].data.value.spanId
  }

  /** Whatever is exported was handed out, and before the span it names as its parent. */
  ghost predicate ExportsOk(s: State) {
    && (forall k :: 0 <= k < |s.exported| ==>
          Data(s.exported[k].traceId, s.exported[k].spanId, s.exported[k].parentSpanId) in s.tagged)
    && (forall m, k :: 0 <= m < k < |s.exported| ==> s.exported[m].spanId != s.exported[k].spanId)
    && (forall m, k :: 0 <= m <= k < |s.exported| ==> s.exported[k].parentSpanId != Some(s.exported[m].spanId))
  }

  ghost predicate Inv(cfg: Config, s: State) {
    NodesOk(cfg, s) && Forest(s.tagged) && LiveOk(s) && ExportsOk(s)
  }

  // ----- looking up is stable -----

  /** Registering or removing other spans does not change what a span sees above it. */
  lemma {:induction false} NearestStable(small: Registry, big: Registry, at: Option<nat>)
    requires Rooted(small) && Rooted(big) && Known(small, at)
    requires forall id :: id in small ==> id in big && big[id] == small[id]
    ensures Nearest(small, at) == Nearest(big, at)
    decreases if at.Some? then small[at.value].born + 1 else 0
  {
    if at.Some? && small[at.value].data.None? {
      NearestStable(small, big, small[at.value].parent);
    }
  }

  lemma NodeStable(cfg: Config, small: Registry, big: Registry, id: nat)
    requires Rooted(small) && Rooted(big) && id in small
    requires forall x :: x in small ==> x in big && big[x] == small[x]
    ensures NodeOk(cfg, small, id) <==> NodeOk(cfg, big, id)
  {
    NearestStable(small, big, small[id].parent);
  }

  /** What `Nearest` finds is the data of a live span. */
  lemma {:induction false} NearestIsLive(spans: Registry, at: Option<nat>) returns (id: nat)
    requires Rooted(spans) && Known(spans, at) && Nearest(spans, at).Some?
    ensures id in spans && spans[id].data == Nearest(spans, at)
    decreases if at.Some? then spans[at.value].born + 1 else 0
  {
    if spans[at.value].data.Some? {
      id := at.value;
    } else {
      id := NearestIsLive(spans, spans[at.value].parent);
    }
  }

  // ----- each step keeps the invariant -----

  lemma NewKeepsNodes(cfg: Config, s: State, id: nat, parent: Option<nat>, name: string, freshTrace: string,
                      freshSpan: string)
    requires NodesOk(cfg, s) && id !in s.spans && Known(s.spans, parent)
    ensures NodesOk(cfg, Register(s, id, parent, name, Tag(cfg, Nearest(s.spans, parent), name, freshTrace, freshSpan)))
  {
    var s' := Register(s, id, parent, name, Tag(cfg, Nearest(s.spans, parent), name, freshTrace, freshSpan));
    assert Rooted(s'.spans);
    forall x | x in s'.spans ensures NodeOk(cfg, s'.spans, x) {
      if x == id {
        NearestStable(s.spans, s'.spans, parent);
      } else {
        NodeStable(cfg, s.spans, s'.spans, x);
      }
    }
  }

  lemma NewKeepsForest(tagged: seq<Data>, d: Data)
    requires Forest(tagged)
    requires forall k :: 0 <= k < |tagged| ==> tagged[k].spanId != d.spanId
    requires d.parentSpanId.None? ==> forall k :: 0 <= k < |tagged| ==> tagged[k].traceId != d.traceId
    requires d.parentSpanId.Some? ==>
               exists j :: 0 <= j < |tagged| && tagged[j].traceId == d.traceId
                           && d.parentSpanId == Some(tagged[j].spanId)
    ensures Forest(tagged + [d])
  {
    var all := tagged + [d];
    forall i | 0 <= i < |all| && all[i].parentSpanId.Some? ensures ParentListed(all, i) {
      if i < |tagged| {
        assert ParentListed(tagged, i);
        var j :| 0 <= j < i && tagged[j].traceId == tagged[i].traceId
                 && tagged[i].parentSpanId == Some(tagged[j].spanId);
        assert all[j] == tagged[j];
      } else {
        var j :| 0 <= j < |tagged| && tagged[j].traceId == d.traceId && d.parentSpanId == Some(tagged[j].spanId);
        assert all[j] == tagged[j];
      }
    }
  }

  lemma NewKeeps(cfg: Config, s: State, e: Event)
    requires Inv(cfg, s) && e.New? && Enabled(s, e)
    ensures Inv(cfg, Apply(cfg, s, e))
  {
    var s' := Apply(cfg, s, e);
    NewKeepsNodes(cfg, s, e.id, e.parent, e.name, e.freshTrace, e.freshSpan);
    var near := Nearest(s.spans, e.parent);
    var data := Tag(cfg, near, e.name, e.freshTrace, e.freshSpan);
    if data.Some? {
      if near.Some? {
        var p := NearestIsLive(s.spans, e.parent);
        assert near.value in s.tagged;
      }
      NewKeepsForest(s.tagged, data.value);
      NewKeepsLive(s, s', e.id, data.value);
    }
  }

  lemma NewKeepsLive(s: State, s': State, id: nat, d: Data)
    requires LiveOk(s) && ExportsOk(s) && id !in s.spans
    requires id in s'.spans && s'.spans[id].data == Some(d) && s'.spans - {id} == s.spans
    requires s'.tagged == s.tagged + [d] && s'.exported == s.exported
    requires forall k :: 0 <= k < |s.tagged| ==> s.tagged[k].spanId != d.spanId
    ensures LiveOk(s') && ExportsOk(s')
  {
    forall x | x in s.spans ensures x in s'.spans && s'.spans[x] == s.spans[x] {
      assert x in s'.spans - {id};
    }
    forall k | 0 <= k < |s.exported| ensures s.exported[k].spanId != d.spanId {
      assert Data(s.exported[k].traceId, s.exported[k].spanId, s.exported[k].parentSpanId) in s.tagged;
    }
  }

  lemma CloseKeepsNodes(cfg: Config, s: State, id: nat)
    requires NodesOk(cfg, s) && id in s.spans && !HasChild(s.spans, id)
    ensures NodesOk(cfg, CloseStep(s, id))
  {
    var s' := CloseStep(s, id);
    assert Rooted(s'.spans);
    forall x | x in s'.spans ensures NodeOk(cfg, s'.spans, x) {
      NodeStable(cfg, s'.spans, s.spans, x);
    }
  }

  /** A span that closes is not yet exported, and neither is the span it names as its parent. */
  lemma ParentNotExported(cfg: Config, s: State, id: nat)
    requires Inv(cfg, s) && id in s.spans && s.spans[id].data.Some?
    ensures !WasExported(s.exported, s.spans[id].data.value.spanId)
    ensures var p := s.spans[id].data.value.parentSpanId;
            p.Some? ==> !WasExported(s.exported, p.value) && p.value != s.spans[id].data.value.spanId
  {
    assert NodeOk(cfg, s.spans, id);
    if s.spans[id].data.value.parentSpanId.Some? {
      var p := NearestIsLive(s.spans, s.spans[id].parent);
      NearestIsOlder(s.spans, s.spans[id].parent, p);
    }
  }

  lemma {:induction false} NearestIsOlder(spans: Registry, at: Option<nat>, id: nat)
    requires Rooted(spans) && Known(spans, at) && Nearest(spans, at).Some?
    requires id in spans && spans[id].data == Nearest(spans, at)
    requires DistinctLive(spans)
    ensures spans[id].born <= spans[at.value].born
    decreases if at.Some? then spans[at.value].born + 1 else 0
  {
    if spans[at.value].data.None? {
      NearestIsOlder(spans, spans[at.value].parent, id);
    }
  }

  lemma CloseKeeps(cfg: Config, s: State, id: nat)
    requires Inv(cfg, s) && id in s.spans && !HasChild(s.spans, id)
    ensures Inv(cfg, CloseStep(s, id))
  {
    CloseKeepsNodes(cfg, s, id);
    if s.spans[id].data.Some? {
      ParentNotExported(cfg, s, id);
      CloseKeepsLive(s, id);
      CloseKeepsExports(s, id);
    }
  }

  lemma CloseKeepsLive(s: State, id: nat)
    requires LiveOk(s) && id in s.spans && s.spans[id].data.Some?
    ensures LiveOk(CloseStep(s, id))
  {
    var s' := CloseStep(s, id);
    var d := s.spans[id].data.value;
    forall x | x in s'.spans && s'.spans[x].data.Some?
      ensures !WasExported(s'.exported, s'.spans[x].data.value.spanId)
    {
      assert !WasExported(s.exported, s.spans[x].data.value.spanId);
      assert s.spans[x].data.value.spanId != d.spanId;
    }
  }

  lemma CloseKeepsExports(s: State, id: nat)
    requires LiveOk(s) && ExportsOk(s) && id in s.spans && s.spans[id].data.Some?
    requires !WasExported(s.exported, s.spans[id].data.value.spanId)
    requires var p := s.spans[id].data.value.parentSpanId;
             p.Some? ==> !WasExported(s.exported, p.value) && p.value != s.spans[id].data.value.spanId
    ensures ExportsOk(CloseStep(s, id))
  {
  }

  lemma StepKeeps(cfg: Config, s: State, e: Event)
    requires Inv(cfg, s) && Enabled(s, e)
    ensures Inv(cfg, Apply(cfg, s, e))
  {
    if e.New? {
      NewKeeps(cfg, s, e);
    } else {
      CloseKeeps(cfg, s, e.id);
    }
  }

  lemma {:induction false} Invariant(cfg: Config, run: seq<Event>)
    requires Exec(cfg, run).Some?
    ensures Inv(cfg, Exec(cfg, run).value)
  {
    if run != [] {
      Invariant(cfg, run[..|run| - 1]);
      StepKeeps(cfg, Exec(cfg, run[..|run| - 1]).value, run[|run| - 1]);
    }
  }

  // ----- the theorems -----

  /** Every trace has exactly one parentless span among all spans ever given data. */
  lemma {:induction false} OneRootPerTrace(cfg: Config, run: seq<Event>, i: nat) returns (root: nat)
    requires Exec(cfg, run).Some? && i < |Exec(cfg, run).value.tagged|
    ensures var tagged := Exec(cfg, run).value.tagged;
            && root <= i && tagged[root].traceId == tagged[i].traceId && tagged[root].parentSpanId.None?
            && forall j :: 0 <= j < |tagged| && tagged[j].parentSpanId.None? && tagged[j].traceId == tagged[i].traceId
                 ==> j == root
    decreases i
  {
    Invariant(cfg, run);
    var tagged := Exec(cfg, run).value.tagged;
    if tagged[i].parentSpanId.None? {
      root := i;
    } else {
      assert ParentListed(tagged, i);
      var j :| 0 <= j < i && tagged[j].traceId == tagged[i].traceId && tagged[i].parentSpanId == Some(tagged[j].spanId);
      root := OneRootPerTrace(cfg, run, j);
    }
  }

  /** A span is exported before the span it names as its parent, and at most once. */
  lemma ChildrenLeaveFirst(cfg: Config, run: seq<Event>, m: nat, k: nat)
    requires Exec(cfg, run).Some? && m <= k < |Exec(cfg, run).value.exported|
    ensures var out := Exec(cfg, run).value.exported;
            && out[k].parentSpanId != Some(out[m].spanId)
            && (m < k ==> out[m].spanId != out[k].spanId)
  {
    Invariant(cfg, run);
  }

  /** `a` lies above `d`. */
  ghost predicate Above(spans: Registry, a: nat, d: nat)
    requires Rooted(spans) && d in spans
    decreases spans[d].born
  {
    spans[d].parent.Some? && (spans[d].parent.value == a || Above(spans, a, spans[d].parent.value))
  }

  /** Below an exported span everything sees that span's trace. */
  lemma {:induction false} TraceReachesDown(cfg: Config, s: State, a: nat, d: nat)
    requires Inv(cfg, s) && a in s.spans && s.spans[a].data.Some? && d in s.spans && Above(s.spans, a, d)
    ensures var near := Nearest(s.spans, s.spans[d].parent);
            near.Some? && near.value.traceId == s.spans[a].data.value.traceId
    decreases s.spans[d].born
  {
    var p := s.spans[d].parent.value;
    if p != a {
      TraceReachesDown(cfg, s, a, p);
      assert NodeOk(cfg, s.spans, p);
    }
  }

  /**
   Sampling keeps subtrees whole: below an exported span, every span under the same
   rule is exported too, in the same trace, unless its name is never exported.
   */
  lemma RuleKeepsSubtree(cfg: Config, run: seq<Event>, a: nat, d: nat)
    requires Exec(cfg, run).Some?
    requires var spans := Exec(cfg, run).value.spans;
             && Rooted(spans) && a in spans && d in spans && spans[a].data.Some? && Above(spans, a, d)
             && spans[d].name !in cfg.dropNames
             && RuleOf(cfg.prefixSample, spans[a].name) == RuleOf(cfg.prefixSample, spans[d].name)
    ensures var spans := Exec(cfg, run).value.spans;
            spans[d].data.Some? && spans[d].data.value.traceId == spans[a].data.value.traceId
  {
    Invariant(cfg, run);
    var s := Exec(cfg, run).value;
    TraceReachesDown(cfg, s, a, d);
    assert NodeOk(cfg, s.spans, a) && NodeOk(cfg, s.spans, d);
    SameRuleSameFate(cfg, s.spans[a].name, s.spans[d].name, s.spans[a].data.value.traceId);
  }

  /**
   A span below one that is not exported founds a new trace exactly when no span
   above is exported at all; otherwise it joins the trace further up.
   */
  lemma RerootsIffNothingAbove(cfg: Config, run: seq<Event>, id: nat)
    requires Exec(cfg, run).Some? && id in Exec(cfg, run).value.spans && Exec(cfg, run).value.spans[id].data.Some?
    ensures var spans := Exec(cfg, run).value.spans;
            && Rooted(spans)
            && (spans[id].data.value.parentSpanId.None?
                <==> forall a :: a in spans && Above(spans, a, id) ==> spans[a].data.None?)
  {
    Invariant(cfg, run);
    var s := Exec(cfg, run).value;
    assert NodeOk(cfg, s.spans, id);
    if a :| a in s.spans && Above(s.spans, a, id) && s.spans[a].data.Some? {
      TraceReachesDown(cfg, s, a, id);
    }
    if Nearest(s.spans, s.spans[id].parent).Some? {
      var a := NearestAbove(s.spans, id);
    }
  }

  lemma {:induction false} NearestAbove(spans: Registry, d: nat) returns (a: nat)
    requires Rooted(spans) && d in spans && Known(spans, spans[d].parent) && Nearest(spans, spans[d].parent).Some?
    ensures a in spans && Above(spans, a, d) && spans[a].data.Some?
    decreases spans[d].born
  {
    a := spans[d].parent.value;
    if spans[a].data.None? {
      a := NearestAbove(spans, a);
    }
  }

  /** The data `d` belong to a span that is still open, or to one that was exported. */
  ghost predicate Accounted(s: State, d: Data) {
    || (exists id :: id in s.spans && s.spans[id].data == Some(d))
    || (exists k :: 0 <= k < |s.exported| && DataOf(s.exported[k]) == d)
  }

  function DataOf(span: Span): Data {
    Data(span.traceId, span.spanId, span.parentSpanId)
  }

  /** Nothing selected for export is lost: it is exported when its span closes. */
  lemma {:induction false} NothingTaggedIsLost(cfg: Config, run: seq<Event>, d: Data)
    requires Exec(cfg, run).Some? && d in Exec(cfg, run).value.tagged
    ensures Accounted(Exec(cfg, run).value, d)
  {
    var init := run[..|run| - 1];
    var s, e := Exec(cfg, init).value, run[|run| - 1];
    if d in s.tagged {
      NothingTaggedIsLost(cfg, init, d);
    }
    StillAccounted(cfg, s, e, d);
  }

  lemma StillAccounted(cfg: Config, s: State, e: Event, d: Data)
    requires Rooted(s.spans) && Enabled(s, e)
    requires d in s.tagged ==> Accounted(s, d)
    ensures d in Apply(cfg, s, e).tagged ==> Accounted(Apply(cfg, s, e), d)
  {
    var s' := Apply(cfg, s, e);
    if id :| d in s.tagged && id in s.spans && s.spans[id].data == Some(d) {
      if e.Close? && id == e.id {
        assert DataOf(s'.exported[|s.exported|]) == d;
      } else {
        assert id in s'.spans && s'.spans[id].data == Some(d);
      }
    } else if d in s.tagged {
      var k :| 0 <= k < |s.exported| && DataOf(s.exported[k]) == d;
      assert s'.exported[k] == s.exported[k];
    } else if e.New? && d in s'.tagged {
      assert s'.spans[e.id].data == Some(d);
    }
  }

  /** `a` is the nearest exported span above `d`: every other one lies above it. */
  ghost predicate Closest(spans: Registry, a: nat, d: nat)
    requires Rooted(spans) && d in spans
  {
    && a in spans && Above(spans, a, d) && spans[a].data.Some?
    && forall b :: b in spans && Above(spans, b, d) && spans[b].data.Some? && b != a ==> Above(spans, b, a)
  }

  /**
   In every reachable state an exported span names its nearest exported ancestor as
   parent and shares its trace, and it names none exactly when there is none.
   */
  lemma ParentIsNearest(cfg: Config, run: seq<Event>, id: nat)
    requires Exec(cfg, run).Some? && id in Exec(cfg, run).value.spans && Exec(cfg, run).value.spans[id].data.Some?
    ensures var spans := Exec(cfg, run).value.spans;
            && Rooted(spans)
            && var d := spans[id].data.value;
               && (d.parentSpanId.Some? <==> exists a :: Closest(spans, a, id))
               && forall a :: Closest(spans, a, id) ==>
                    var p := spans[a].data.value;
                    d.parentSpanId == Some(p.spanId) && d.traceId == p.traceId
  {
    Invariant(cfg, run);
    var spans := Exec(cfg, run).value.spans;
    assert NodeOk(cfg, spans, id);
    if Nearest(spans, spans[id].parent).Some? {
      var near := NearestIsClosest(spans, id);
      forall a | Closest(spans, a, id) ensures a == near {
        OneClosest(spans, a, near, id);
      }
    } else {
      forall a | a in spans && Above(spans, a, id) ensures spans[a].data.None? {
        NothingAbove(spans, a, id);
      }
    }
  }

  lemma {:induction false} NearestIsClosest(spans: Registry, d: nat) returns (a: nat)
    requires Rooted(spans) && d in spans && Nearest(spans, spans[d].parent).Some?
    ensures Closest(spans, a, d) && spans[a].data == Nearest(spans, spans[d].parent)
    decreases spans[d].born
  {
    a := spans[d].parent.value;
    if spans[a].data.None? {
      a := NearestIsClosest(spans, a);
    }
  }

  lemma {:induction false} NothingAbove(spans: Registry, a: nat, d: nat)
    requires Rooted(spans) && d in spans && Nearest(spans, spans[d].parent).None? && a in spans && Above(spans, a, d)
    ensures spans[a].data.None?
    decreases spans[d].born
  {
    var p := spans[d].parent.value;
    if p != a {
      NothingAbove(spans, a, p);
    }
  }

  lemma OneClosest(spans: Registry, a: nat, b: nat, d: nat)
    requires Rooted(spans) && d in spans && Closest(spans, a, d) && Closest(spans, b, d)
    ensures a == b
  {
    if a != b {
      AboveIsOlder(spans, a, b);
      AboveIsOlder(spans, b, a);
      assert false;
    }
  }

  lemma {:induction false} AboveIsOlder(spans: Registry, a: nat, d: nat)
    requires Rooted(spans) && a in spans && d in spans && Above(spans, a, d)
    ensures spans[a].born < spans[d].born
    decreases spans[d].born
  {
    var p := spans[d].parent.value;
    if p != a {
      AboveIsOlder(spans, a, p);
    }
  }

  /** A child of a dropped span can keep the trace of a span further up: a concrete run. */
  lemma DroppedSpanIsSkipped()
    ensures var cfg := Config({"b"}, []);
            var run := [New(1, None, "a", "t1", "s1"), New(2, Some(1), "b", "t2", "s2"),
                        New(3, Some(2), "c", "t3", "s3")];
            && Exec(cfg, run).Some? && 3 in Exec(cfg, run).value.spans
            && Exec(cfg, run).value.spans[3].data == Some(Data("t1", "s3", Some("s1")))
  {
    var cfg := Config({"b"}, []);
    var first, second := New(1, None, "a", "t1", "s1"), New(2, Some(1), "b", "t2", "s2");
    var third := New(3, Some(2), "c", "t3", "s3");
    assert [] + [first] == [first] && [first] + [second] == [first, second];
    assert [first, second] + [third] == [first, second, third];
    var d := Data("t1", "s1", None);
    var s1 := Register(INITIAL, 1, None, "a", Some(d));
    var s2 := Register(s1, 2, Some(1), "b", None);
    Opened(cfg, [], INITIAL, first, Some(d));
    hide Exec;
    Opened(cfg, [first], s1, second, None);
    assert Nearest(s2.spans, Some(2)) == Nearest(s2.spans, Some(1)) == Some(d);
    assert "t3" != "t1" && "s3" != "s1";
    Opened(cfg, [first, second], s2, third, Some(Data("t1", "s3", Some("s1"))));
  }

  lemma Opened(cfg: Config, run: seq<Event>, s: State, e: Event, data: Option<Data>)
    requires Exec(cfg, run) == Some(s) && Rooted(s.spans) && e.New? && Enabled(s, e)
    requires Tag(cfg, Nearest(s.spans, e.parent), e.name, e.freshTrace, e.freshSpan) == data
    ensures Exec(cfg, run + [e]) == Some(Register(s, e.id, e.parent, e.name, data))
  {
    hide Tag, Nearest, Register, Enabled, Rooted;
    var longer := run + [e];
    assert longer[..|longer| - 1] == run;
  }

  // ----- the layer -----

  /** Appending an enabled step to a run. */
  lemma RunStep(cfg: Config, run: seq<Event>, e: Event)
    requires Exec(cfg, run).Some? && Enabled(Exec(cfg, run).value, e)
    ensures Inv(cfg, Exec(cfg, run).value)
    ensures Exec(cfg, run + [e]) == Some(Apply(cfg, Exec(cfg, run).value, e))
  {
    Invariant(cfg, run);
    var longer := run + [e];
    assert longer[..|longer| - 1] == run;
  }

  /** A prefix of a run is a run, and the step after it is enabled. */
  lemma {:induction false} PrefixRuns(cfg: Config, run: seq<Event>, k: nat)
    requires Exec(cfg, run).Some? && k <= |run|
    ensures Exec(cfg, run[..k]).Some?
    ensures k < |run| ==> Enabled(Exec(cfg, run[..k]).value, run[k])
    decreases |run| - k
  {
    hide Apply, Enabled;
    if k < |run| {
      PrefixRuns(cfg, run, k + 1);
      assert run[..k + 1][..k] == run[..k];
    } else {
      assert run[..k] == run;
    }
  }

  /**
   The layer's state: per-span data in the registry, and what it pushed to the
   uploader. It carries the run it has performed, so every theorem about runs holds of it.
   */
  class TraceLayer {
    const cfg: Config
    var spans: Registry
    var exported: seq<Span>
    var births: nat
    ghost var tagged: seq<Data>

    /** The run performed so far. */
    ghost var run: seq<Event>

    ghost function Abstract(): State
      reads this
    {
      State(spans, births, tagged, exported)
    }

    ghost predicate Valid()
      reads this
    {
      Exec(cfg, run) == Some(Abstract())
    }

    constructor (cfg: Config)
      ensures this.cfg == cfg && Abstract() == INITIAL && run == [] && Valid()
    {
      this.cfg := cfg;
      spans, exported, births, tagged, run := map[], [], 0, [], [];
    }

    /** Walk up from `at` to the first span that carries data. */
    method FindNearest(at: Option<nat>) returns (near: Option<Data>)
      requires Rooted(spans) && Known(spans, at)
      ensures near == Nearest(spans, at)
    {
      var i := at;
      while i.Some?
        invariant Known(spans, i) && Nearest(spans, i) == Nearest(spans, at)
        decreases if i.Some? then spans[i.value].born + 1 else 0
      {
        if spans[i.value].data.Some? {
          return spans[i.value].data;
        }
        i := spans[i.value].parent;
      }
      near := None;
    }

    method OnNewSpan(id: nat, parent: Option<nat>, name: string, freshTrace: string, freshSpan: string)
      requires Valid() && Enabled(Abstract(), New(id, parent, name, freshTrace, freshSpan))
      modifies this
      ensures Valid() && run == old(run) + [New(id, parent, name, freshTrace, freshSpan)]
      ensures id in spans && spans[id].parent == parent && spans[id].name == name && spans - {id} == old(spans)
      ensures exported == old(exported)
      ensures Rooted(old(spans)) &&
              spans[id].data ==
              match Nearest(old(spans), parent)
              case Some(p) =>
                if ShouldShip(cfg, name, p.traceId) then Some(Data(p.traceId, freshSpan, Some(p.spanId))) else None
              case None =>
                if ShouldShip(cfg, name, freshTrace) then Some(Data(freshTrace, freshSpan, None)) else None
    {
      hide Exec;
      RunStep(cfg, run, New(id, parent, name, freshTrace, freshSpan));
      run := run + [New(id, parent, name, freshTrace, freshSpan)];
      var near := FindNearest(parent);
      var (traceId, parentSpanId) := Inherit(near, freshTrace);
      var data := None;
      if ShouldShip(cfg, name, traceId) {
        data := Some(Data(traceId, freshSpan, parentSpanId));
        tagged := tagged + [data.value];
      }
      spans := spans[id := Node(parent, name, births, data)];
      births := births + 1;
    }

    /** Push the span's record, if it carries data, and forget the span; an unknown span is ignored. */
    method OnClose(id: nat)
      requires Valid() && (id in spans ==> !HasChild(spans, id))
      modifies this
      ensures Valid() && run == old(run) + if id in old(spans) then [Close(id)] else []
      ensures spans == old(spans) - {id}
      ensures exported == old(exported) +
                if id in old(spans) && old(spans)[id].data.Some?
                then
                  var d := old(spans)[id].data.value;
                  [TraceUploader.Span(d.traceId, d.spanId, d.parentSpanId, old(spans)[id].name)]
                else []
    {
      hide Exec;
      if id !in spans {
        return;
      }
      RunStep(cfg, run, Close(id));
      run := run + [Close(id)];
      var node := spans[id];
      if node.data.Some? {
        exported := exported + [ExportOf(node.name, node.data.value)];
      }
      spans := spans - {id};
    }

    /** The layer under any schedule of spans opening and closing keeps the tree. */
    method Run(schedule: seq<Event>)
      requires run == [] && Valid() && Exec(cfg, schedule).Some?
      modifies this
      ensures Valid() && run == schedule && Inv(cfg, Abstract())
    {
      var k := 0;
      while k < |schedule|
        invariant 0 <= k <= |schedule|
        invariant Valid() && run == schedule[..k]
      {
        PrefixRuns(cfg, schedule, k);
        match schedule[k] {
          case New(id, parent, name, freshTrace, freshSpan) => OnNewSpan(id, parent, name, freshTrace, freshSpan);
          case Close(id) => OnClose(id);
        }
        assert schedule[..k + 1] == schedule[..k] + [schedule[k]];
        k := k + 1;
      }
      assert schedule[..k] == schedule;
      Invariant(cfg, run);
    }
  }
}
