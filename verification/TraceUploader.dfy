/**
 The trace uploader: producers push spans into a bounded queue, one worker collects
 them into batches and hands the batches to a transport.
 */
module TraceUploader {
  import opened Common

  datatype Span = Span(traceId: string, spanId: string, parentSpanId: Option<string>, name: string)

  datatype PushError = QueueFull | Stopped

  /** Sizes as configured; zero counts as one. */
  datatype Config = Config(batchSize: nat, queueCapacity: nat) {
    function Batch(): (n: nat)
      ensures n >= 1
    {
      if batchSize == 0 then 1 else batchSize
    }

    function Capacity(): (n: nat)
      ensures n >= 1
    {
      if queueCapacity == 0 then 1 else queueCapacity
    }
  }

  /**
   Where the worker is; while it sends, `last` tells whether it exits afterwards.
   `Aborted` means its receiver was dropped, before it ever ran or in the middle.
   */
  datatype Phase = Starting | Looping | Sending(last: bool) | Exited | Aborted {
    /** The receiving end of the channel is gone. */
    predicate Gone() {
      Exited? || Aborted?
    }
  }

  /** A batch handed to the transport, and whether the queue was empty at that moment. */
  datatype Batch = Batch(spans: seq<Span>, queueWasEmpty: bool)

  datatype State = State(
    queue: seq<Span>,
    open: bool,
    dropped: nat,
    buf: seq<Span>,
    phase: Phase,
    batches: seq<Batch>,
    accepted: seq<Span>,
    refusals: seq<PushError>
  )

  const INITIAL: State := State([], true, 0, [], Starting, [], [], [])

  /** `Recv` and `Tick` are the two branches of the select, `Sent` the end of a transport call. */
  datatype Event =
    | Push(span: Span)
    | CloseHandles
    | Start
    | Recv
    | Tick
    | Sent(ok: bool)
    | Abort

  // ----- the steps -----

  function PushStep(cfg: Config, s: State, span: Span): State {
    if s.phase.Gone() then s.(refusals := s.refusals + [Stopped])
    else if |s.queue| >= cfg.Capacity() then s.(dropped := s.dropped + 1, refusals := s.refusals + [QueueFull])
    else s.(queue := s.queue + [span], accepted := s.accepted + [span])
  }

  /** Hand the buffer to the transport, unless it is empty. */
  function Flush(s: State, last: bool): State {
    if s.buf == [] then s.(phase := if last then Exited else Looping)
    else s.(buf := [], batches := s.batches + [Batch(s.buf, s.queue == [])], phase := Sending(last))
  }

  function RecvStep(cfg: Config, s: State): State {
    if s.queue == [] then Flush(s, true)
    else
      var taken := s.(queue := s.queue[1..], buf := s.buf + [s.queue[0]]);
      if |taken.buf| >= cfg.Batch() then Flush(taken, false) else taken
  }

  /** The select is biased: the timer branch runs only when there is nothing to receive. */
  predicate Enabled(s: State, e: Event) {
    match e
    case Push(_) => s.open
    case CloseHandles => s.open
    case Start => s.phase.Starting?
    case Recv => s.phase.Looping? && (s.queue != [] || !s.open)
    case Tick => s.phase.Looping? && s.queue == [] && s.open
    case Sent(_) => s.phase.Sending?
    case Abort => !s.phase.Gone()
  }

  function Apply(cfg: Config, s: State, e: Event): State {
    match e
    case Push(span) => PushStep(cfg, s, span)
    case CloseHandles => s.(open := false)
    case Start => s.(phase := Looping)
    case Recv => RecvStep(cfg, s)
    case Tick => Flush(s, false)
    case Sent(_) => s.(phase := if s.phase.Sending? && s.phase.last then Exited else Looping)
    case Abort => s.(phase := Aborted)
  }

  function Exec(cfg: Config, run: seq<Event>): Option<State> {
    if run == [] then Some(INITIAL)
    else
      var before := Exec(cfg, run[..|run| - 1]);
      var e := run[|run| - 1];
      if before.Some? && Enabled(before.value, e) then Some(Apply(cfg, before.value, e)) else None
  }

  // ----- the invariant -----

  function Shipped(batches: seq<Batch>): seq<Span> {
    if batches == [] then []
    else Shipped(batches[..|batches| - 1]) + batches[|batches| - 1].spans
  }

  function CountFull(refusals: seq<PushError>): nat {
    if refusals == [] then 0
    else CountFull(refusals[..|refusals| - 1]) + if refusals[|refusals| - 1].QueueFull? then 1 else 0
  }

  /** A batch is never empty, never too long, and short only when no more spans were waiting. */
  predicate BatchOk(cfg: Config, b: Batch) {
    1 <= |b.spans| <= cfg.Batch() && (|b.spans| < cfg.Batch() ==> b.queueWasEmpty)
  }

  ghost predicate Inv(cfg: Config, s: State) {
    && Shipped(s.batches) + s.buf + s.queue == s.accepted
    && (forall k :: 0 <= k < |s.batches| ==> BatchOk(cfg, s.batches[k]))
    && |s.buf| < cfg.Batch()
    && |s.queue| <= cfg.Capacity()
    && s.dropped == CountFull(s.refusals)
    && (s.phase.Sending? || s.phase.Exited? || s.phase.Starting? ==> s.buf == [])
    && (s.phase.Exited? || (s.phase.Sending? && s.phase.last) ==> s.queue == [] && !s.open)
  }

  lemma FlushKeeps(cfg: Config, s: State, last: bool)
    requires Shipped(s.batches) + s.buf + s.queue == s.accepted
    requires forall k :: 0 <= k < |s.batches| ==> BatchOk(cfg, s.batches[k])
    requires |s.buf| <= cfg.Batch() && (|s.buf| < cfg.Batch() ==> s.queue == [])
    requires |s.queue| <= cfg.Capacity() && s.dropped == CountFull(s.refusals)
    requires last ==> s.queue == [] && !s.open
    ensures Inv(cfg, Flush(s, last))
  {
    var s' := Flush(s, last);
    if s.buf != [] {
      assert s'.batches[..|s'.batches| - 1] == s.batches;
      assert Shipped(s'.batches) == Shipped(s.batches) + s.buf;
    }
  }

  lemma RecvKeeps(cfg: Config, s: State)
    requires Inv(cfg, s) && Enabled(s, Recv)
    ensures Inv(cfg, RecvStep(cfg, s))
  {
    if s.queue == [] {
      FlushKeeps(cfg, s, true);
    } else {
      var taken := s.(queue := s.queue[1..], buf := s.buf + [s.queue[0]]);
      assert s.queue == [s.queue[0]] + taken.queue;
      assert Shipped(taken.batches) + taken.buf + taken.queue == s.accepted;
      if |taken.buf| >= cfg.Batch() {
        FlushKeeps(cfg, taken, false);
      }
    }
  }

  lemma PushKeeps(cfg: Config, s: State, span: Span)
    requires Inv(cfg, s) && s.open
    ensures Inv(cfg, PushStep(cfg, s, span))
  {
    hide Shipped, BatchOk;
    var s' := PushStep(cfg, s, span);
    if s.phase.Gone() || |s.queue| >= cfg.Capacity() {
      assert s'.refusals[..|s'.refusals| - 1] == s.refusals;
    } else {
      hide CountFull;
      var shipped := Shipped(s.batches);
      assert shipped + s.buf + (s.queue + [span]) == shipped + s.buf + s.queue + [span];
    }
  }

  lemma StepKeeps(cfg: Config, s: State, e: Event)
    requires Inv(cfg, s) && Enabled(s, e)
    ensures Inv(cfg, Apply(cfg, s, e))
  {
    match e
    case Push(span) => PushKeeps(cfg, s, span);
    case Recv => RecvKeeps(cfg, s);
    case Tick => FlushKeeps(cfg, s, false);
    case _ =>
  }

  lemma {:induction false} Invariant(cfg: Config, run: seq<Event>)
    requires Exec(cfg, run).Some?
    ensures Inv(cfg, Exec(cfg, run).value)
  {
    if run != [] {
      Invariant(cfg, run[..|run| - 1]);
      StepKeeps(cfg, Exec(cfg, run[..|run| - 1]).value, run[|run| - 1]);
    }
  }

  /**
   Conservation in every interleaving: what was handed over, what is buffered and
   what is queued concatenate to exactly the accepted spans, in order; the counter
   counts exactly the full-queue refusals.
   */
  lemma NothingIsLost(cfg: Config, run: seq<Event>)
    requires Exec(cfg, run).Some?
    ensures var s := Exec(cfg, run).value;
            && Shipped(s.batches) + s.buf + s.queue == s.accepted
            && s.dropped == CountFull(s.refusals)
            && |s.buf| < cfg.Batch() && |s.queue| <= cfg.Capacity()
            && forall k :: 0 <= k < |s.batches| ==> BatchOk(cfg, s.batches[k])
  {
    Invariant(cfg, run);
  }

  /** Once the worker has exited, every accepted span was handed to the transport exactly once. */
  lemma ExitDrainsAll(cfg: Config, run: seq<Event>)
    requires Exec(cfg, run).Some? && Exec(cfg, run).value.phase.Exited?
    ensures var s := Exec(cfg, run).value;
            s.buf == [] && s.queue == [] && !s.open && Shipped(s.batches) == s.accepted
  {
    Invariant(cfg, run);
  }

  /**
   A push meets a stopped worker only when the receiver was dropped under it: a worker
   that ends by itself does so after the last handle is gone.
   */
  lemma {:induction false} StoppedOnlyWhenAborted(cfg: Config, run: seq<Event>)
    requires Exec(cfg, run).Some?
    ensures Stopped in Exec(cfg, run).value.refusals ==> Exec(cfg, run).value.phase.Aborted?
  {
    if run != [] {
      StoppedOnlyWhenAborted(cfg, run[..|run| - 1]);
      Invariant(cfg, run[..|run| - 1]);
    }
  }

  /** For a push in any reachable state: stopped exactly when aborted, full exactly when not and the queue is full. */
  lemma RefusalMeans(cfg: Config, run: seq<Event>, span: Span)
    requires Exec(cfg, run).Some? && Exec(cfg, run).value.open
    ensures var s := Exec(cfg, run).value;
            var t := Apply(cfg, s, Push(span));
            var capacity := if cfg.queueCapacity == 0 then 1 else cfg.queueCapacity;
            && (t.refusals == s.refusals + [Stopped] <==> s.phase.Aborted?)
            && (t.refusals == s.refusals + [QueueFull] <==> !s.phase.Aborted? && |s.queue| == capacity)
            && (t.accepted == s.accepted + [span] <==> !s.phase.Aborted? && |s.queue| < capacity)
  {
    Invariant(cfg, run);
    var s := Exec(cfg, run).value;
    assert s.refusals + [Stopped] != s.refusals + [QueueFull] by {
      assert (s.refusals + [Stopped])[|s.refusals|] != (s.refusals + [QueueFull])[|s.refusals|];
    }
    assert |s.refusals + [Stopped]| != |s.refusals| && |s.accepted + [span]| != |s.accepted|;
  }

  /** `t` hands the spans `full` over as one more batch than `s`; there is none to hand over when there are no spans. */
  predicate HandsOver(s: State, full: seq<Span>, t: State) {
    if full == [] then t.batches == s.batches
    else |t.batches| == |s.batches| + 1 && t.batches[..|s.batches|] == s.batches && t.batches[|s.batches|].spans == full
  }

  /**
   The timer, whenever it fires: what was buffered is the last batch, the buffer is
   empty, and everything accepted so far has been handed over.
   */
  lemma TickFlushes(cfg: Config, run: seq<Event>)
    requires Exec(cfg, run).Some? && Enabled(Exec(cfg, run).value, Tick)
    ensures var s := Exec(cfg, run).value;
            var t := Apply(cfg, s, Tick);
            && t.buf == [] && t.queue == s.queue == [] && t.accepted == s.accepted && HandsOver(s, s.buf, t)
            && t.phase == (if s.buf == [] then Looping else Sending(false))
            && Shipped(t.batches) == s.accepted
  {
    Invariant(cfg, run);
    var s := Exec(cfg, run).value;
    FlushKeeps(cfg, s, false);
    hide Exec, Shipped;
    assert Shipped(s.batches) + [] == Shipped(s.batches);
  }

  /**
   A receive, whenever it happens: the oldest span joins the buffer, which is handed
   over once it holds a full batch; at the end of the stream what is left is handed
   over and the worker exits.
   */
  lemma ReceiveMeans(cfg: Config, run: seq<Event>)
    requires Exec(cfg, run).Some? && Enabled(Exec(cfg, run).value, Recv)
    ensures var s := Exec(cfg, run).value;
            var t := Apply(cfg, s, Recv);
            var size := if cfg.batchSize == 0 then 1 else cfg.batchSize;
            if s.queue == [] then
              && !s.open && t.queue == [] && t.buf == [] && HandsOver(s, s.buf, t)
              && t.phase == if s.buf == [] then Exited else Sending(true)
            else
              var full := s.buf + [s.queue[0]];
              && s.queue == [s.queue[0]] + t.queue
              && if |full| < size then t.buf == full && HandsOver(s, [], t) && t.phase == Looping
                 else t.buf == [] && HandsOver(s, full, t) && t.phase == Sending(false)
  {
    hide Exec;
  }

  /** A transport call that ends, well or not, hands nothing over again; the last one ends the worker. */
  lemma SentMeans(cfg: Config, run: seq<Event>, ok: bool)
    requires Exec(cfg, run).Some? && Enabled(Exec(cfg, run).value, Sent(ok))
    ensures var s := Exec(cfg, run).value;
            Apply(cfg, s, Sent(ok)) == s.(phase := if s.phase == Sending(true) then Exited else Looping)
  {
    hide Exec;
  }

  /** Steps the worker can still take on its own, without pushes, before it must have exited. */
  function Remaining(s: State): nat {
    match s.phase
    case Exited => 0
    case Aborted => 0
    case Sending(last) => if last then 1 else 2 * |s.queue| + 3
    case Looping => 2 * |s.queue| + 2
    case Starting => 2 * |s.queue| + 3
  }

  /**
   Shutdown ends: after the handles are gone at most `Remaining` further steps fit
   before the exit, and until then one is always enabled.
   */
  lemma {:induction false} ShutdownEnds(cfg: Config, run: seq<Event>, tail: seq<Event>)
    requires Exec(cfg, run).Some? && !Exec(cfg, run).value.open && Exec(cfg, run + tail).Some?
    ensures var s, s' := Exec(cfg, run).value, Exec(cfg, run + tail).value;
            && |tail| + Remaining(s') <= Remaining(s)
            && (s'.phase.Gone() || Enabled(s', Start) || Enabled(s', Recv) || Enabled(s', Sent(true)))
            && !s'.open
  {
    var all := run + tail;
    if tail == [] {
      assert all == run;
    } else {
      hide Apply, Enabled, Remaining;
      assert all[..|all| - 1] == run + tail[..|tail| - 1];
      ShutdownEnds(cfg, run, tail[..|tail| - 1]);
      Invariant(cfg, all[..|all| - 1]);
      ShutdownStep(cfg, Exec(cfg, all[..|all| - 1]).value, all[|all| - 1]);
    }
    NeverStuck(cfg, Exec(cfg, all).value);
  }

  lemma ShutdownStep(cfg: Config, s: State, e: Event)
    requires Inv(cfg, s) && !s.open && Enabled(s, e)
    ensures Remaining(Apply(cfg, s, e)) < Remaining(s) && !Apply(cfg, s, e).open
  {
    hide Shipped, CountFull, BatchOk;
  }

  lemma NeverStuck(cfg: Config, s: State)
    ensures !s.open && !s.phase.Gone() ==> Enabled(s, Start) || Enabled(s, Recv) || Enabled(s, Sent(true))
  {
  }

  // ----- the objects -----

  /** The queue and counter behind the handles together with the worker that drains them. */
  class Uploader {
    const cfg: Config
    var queue: seq<Span>
    var open: bool
    var dropped: nat
    var buf: seq<Span>
    var phase: Phase
    var batches: seq<Batch>
    ghost var accepted: seq<Span>
    ghost var refusals: seq<PushError>

    ghost function Abstract(): State
      reads this
    {
      State(queue, open, dropped, buf, phase, batches, accepted, refusals)
    }

    ghost predicate Valid()
      reads this
    {
      Inv(cfg, Abstract())
    }

    constructor (cfg: Config)
      ensures this.cfg == cfg && Abstract() == INITIAL && Valid()
    {
      this.cfg := cfg;
      queue, open, dropped, buf, phase, batches, accepted, refusals := [], true, 0, [], Starting, [], [], [];
    }

    /** Best-effort push: accepted and queued last, or refused with the reason. */
    method PushSpan(span: Span) returns (r: Result<(), PushError>)
      requires open
      modifies this
      ensures Abstract() == Apply(cfg, old(Abstract()), Push(span))
      ensures r == Err(Stopped) <==> old(phase).Gone()
      ensures r == Err(QueueFull) <==> !old(phase).Gone() && |old(queue)| >= cfg.Capacity()
      ensures r.Ok? ==> accepted == old(accepted) + [span] && queue == old(queue) + [span] && dropped == old(dropped)
      ensures r.Err? ==> queue == old(queue) && accepted == old(accepted)
      ensures dropped == old(dropped) + if r == Err(QueueFull) then 1 else 0
    {
      if phase.Gone() {
        refusals := refusals + [Stopped];
        return Err(Stopped);
      }
      if |queue| >= cfg.Capacity() {
        dropped, refusals := dropped + 1, refusals + [QueueFull];
        return Err(QueueFull);
      }
      queue, accepted := queue + [span], accepted + [span];
      r := Ok(());
    }

    /** Empty the buffer into one batch; nothing to do when it is empty. */
    method FlushBuffer(last: bool)
      modifies this
      ensures Abstract() == Flush(old(Abstract()), last)
      ensures Shipped(batches) == Shipped(old(batches)) + old(buf) && buf == []
      ensures HandsOver(old(Abstract()), old(buf), Abstract())
    {
      if buf == [] {
        phase := if last then Exited else Looping;
        return;
      }
      ghost var was := batches;
      batches := batches + [Batch(buf, queue == [])];
      assert batches[..|batches| - 1] == was;
      buf := [];
      phase := Sending(last);
    }

    /** The receive branch: the oldest span, or the end of the stream. */
    method Receive()
      requires Valid() && Enabled(Abstract(), Recv)
      modifies this
      ensures Valid() && Abstract() == Apply(cfg, old(Abstract()), Recv)
    {
      hide Inv, Shipped, Flush;
      RecvKeeps(cfg, Abstract());
      if queue == [] {
        FlushBuffer(true);
      } else {
        buf := buf + [queue[0]];
        queue := queue[1..];
        if |buf| >= cfg.Batch() {
          FlushBuffer(false);
        }
      }
    }

    method Step(e: Event)
      requires Valid() && Enabled(Abstract(), e)
      modifies this
      ensures Valid() && Abstract() == Apply(cfg, old(Abstract()), e)
    {
      StepKeeps(cfg, Abstract(), e);
      match e
      case Push(span) =>
        var r := PushSpan(span);
      case CloseHandles => open := false;
      case Start => phase := Looping;
      case Recv => Receive();
      case Tick => FlushBuffer(false);
      case Sent(_) => phase := if phase.Sending? && phase.last then Exited else Looping;
      case Abort => phase := Aborted;
    }

    /**
     The worker under a schedule of what happens around it: started, woken by spans,
     timer and transport, until the schedule ends. Its state is the machine's.
     */
    method Run(schedule: seq<Event>)
      requires Abstract() == INITIAL && Exec(cfg, schedule).Some?
      modifies this
      ensures Valid() && Some(Abstract()) == Exec(cfg, schedule)
    {
      hide Inv, Apply, Enabled;
      Invariant(cfg, []);
      var k := 0;
      while k < |schedule|
        invariant 0 <= k <= |schedule|
        invariant Exec(cfg, schedule[..k]) == Some(Abstract()) && Valid()
      {
        assert schedule[..k + 1][..k] == schedule[..k];
        PrefixRuns(cfg, schedule, k + 1);
        assert schedule[..k + 1][k] == schedule[k];
        Step(schedule[k]);
        k := k + 1;
      }
      assert schedule[..k] == schedule;
    }
  }

  /** A prefix of a run is a run. */
  lemma {:induction false} PrefixRuns(cfg: Config, run: seq<Event>, k: nat)
    requires Exec(cfg, run).Some? && k <= |run|
    ensures Exec(cfg, run[..k]).Some?
    decreases |run| - k
  {
    if k < |run| {
      PrefixRuns(cfg, run, k + 1);
      assert run[..k + 1][..k] == run[..k];
    } else {
      assert run[..k] == run;
    }
  }
}
