/** What every run of the uplink keeps: conservation, order, honest answers, strict priority. */
module UplinkSafety {
  import opened Common
  import opened Uplink

  // ----- the invariant -----

  function FramesOf(done: seq<Outcome>): (r: seq<Frame>)
    ensures |r| == |done|
    ensures forall k :: 0 <= k < |r| ==> r[k] == done[k].frame
  {
    seq(|done|, k requires 0 <= k < |done| => done[k].frame)
  }

  function InFlight(s: State, t: Tier): seq<Frame> {
    if s.pump.Flushing? && s.pump.tier == t then [s.pump.frame] else []
  }

  /** Everything accepted is, in order: disposed of, then on its way out, then queued. */
  ghost predicate Conserved(s: State, t: Tier) {
    s.Lane(t).accepted == FramesOf(s.Lane(t).done) + InFlight(s, t) + s.Lane(t).queue
  }

  /** What a frame looks like on the wire when the pump took it at `at`. */
  predicate WireOf(clock: Clock, t: Tier, frame: Frame, wire: Envelope, at: nat) {
    wire == if t.Control? then StampAtFlush(clock, frame.env, at) else frame.env
  }

  ghost predicate OutcomeOk(clock: Clock, s: State, t: Tier, k: nat)
    requires k < |s.Lane(t).done|
  {
    match s.Lane(t).done[k]
    case Written(frame, wire, at) => WireOf(clock, t, frame, wire, at)
    case Unserialisable(_) => true
    case WriteFailed(_) => s.pump.Stopped? && k == |s.Lane(t).done| - 1
  }

  ghost predicate LaneOk(clock: Clock, s: State, t: Tier) {
    && Conserved(s, t)
    && |s.Lane(t).queue| <= Capacity(t)
    && (forall k :: 0 <= k < |s.Lane(t).done| ==> OutcomeOk(clock, s, t, k))
    && (s.pump.Flushing? && s.pump.tier == t ==> WireOf(clock, t, s.pump.frame, s.pump.wire, s.pump.at))
  }

  /** Exactly the calls that ended in `Sent` have their frame in the tier of its envelope, once. */
  ghost predicate AcceptedOk(s: State, t: Tier) {
    && (forall n :: 0 <= n < |s.Lane(t).accepted| ==> SentFrame(s, t, s.Lane(t).accepted[n]))
    && DistinctCalls(s.Lane(t).accepted)
  }

  ghost predicate DistinctCalls(frames: seq<Frame>) {
    forall m, n :: 0 <= m < n < |frames| ==> frames[m].call != frames[n].call
  }

  predicate SentFrame(s: State, t: Tier, f: Frame) {
    && TierOf(f.env.body) == t
    && f.call in s.calls && s.calls[f.call] == Call(f.env, Some(Sent))
  }

  ghost predicate CallOk(s: State, call: nat)
    requires call in s.calls
  {
    var c := s.calls[call];
    var t := TierOf(c.env.body);
    match c.verdict
    case None => !t.Bulk?
    case Some(Sent) => Frame(call, c.env) in s.Lane(t).accepted
    case Some(Shed) => t.Bulk?
    case Some(TimedOut) => !t.Bulk?
    case Some(ChannelClosed) => s.pump.Stopped?
  }

  ghost predicate CallsOk(s: State) {
    forall call :: call in s.calls ==> CallOk(s, call)
  }

  ghost predicate Inv(clock: Clock, s: State) {
    && (forall t :: LaneOk(clock, s, t))
    && (forall t :: AcceptedOk(s, t))
    && CallsOk(s)
    && |s.inbox| <= INBOUND_CAPACITY
  }

  // ----- each step keeps it -----

  lemma EnqueueKeeps(clock: Clock, s: State, call: nat, env: Envelope)
    requires Inv(clock, s) && Room(s, TierOf(env.body)) && !s.pump.Stopped?
    requires call in s.calls ==> s.calls[call] == Call(env, None)
    ensures Inv(clock, Enqueue(s, call, env))
  {
    var s' := Enqueue(s, call, env);
    forall t ensures LaneOk(clock, s', t) {
      EnqueueLane(clock, s, call, env, t);
    }
    forall t ensures AcceptedOk(s', t) {
      EnqueueAccepts(s, call, env, t);
    }
    forall c | c in s'.calls ensures CallOk(s', c) {
      assert c != call ==> CallOk(s, c);
    }
  }

  lemma EnqueueLane(clock: Clock, s: State, call: nat, env: Envelope, t: Tier)
    requires LaneOk(clock, s, t) && Room(s, TierOf(env.body))
    ensures LaneOk(clock, Enqueue(s, call, env), t)
  {
    var s' := Enqueue(s, call, env);
    assert s'.Lane(t).done == s.Lane(t).done;
    forall k | 0 <= k < |s.Lane(t).done| ensures OutcomeOk(clock, s', t, k) {
      assert OutcomeOk(clock, s, t, k);
    }
  }

  lemma EnqueueAccepts(s: State, call: nat, env: Envelope, t: Tier)
    requires AcceptedOk(s, t)
    requires call in s.calls ==> s.calls[call] == Call(env, None)
    ensures AcceptedOk(Enqueue(s, call, env), t)
  {
    var s' := Enqueue(s, call, env);
    var was, now := s.Lane(t).accepted, s'.Lane(t).accepted;
    forall n | 0 <= n < |now| ensures SentFrame(s', t, now[n]) {
      assert n < |was| ==> SentFrame(s, t, was[n]);
    }
    forall n | 0 <= n < |was| ensures was[n].call != call {
      assert SentFrame(s, t, was[n]);
    }
  }

  lemma SettleKeeps(clock: Clock, s: State, call: nat, env: Envelope, verdict: Option<Verdict>)
    requires Inv(clock, s) && (call in s.calls ==> s.calls[call] == Call(env, None))
    requires verdict != Some(Sent)
    requires verdict == Some(ChannelClosed) ==> s.pump.Stopped?
    requires verdict == Some(Shed) <==> (verdict != Some(ChannelClosed) && TierOf(env.body).Bulk?)
    ensures Inv(clock, Settle(s, call, env, verdict))
  {
    var s' := Settle(s, call, env, verdict);
    forall t ensures LaneOk(clock, s', t) {
      SameLane(clock, s, s', t);
    }
    forall t ensures AcceptedOk(s', t) {
      SettleAccepts(s, call, env, verdict, t);
    }
    forall c | c in s'.calls ensures CallOk(s', c) {
      assert c != call ==> CallOk(s, c);
    }
  }

  lemma SettleAccepts(s: State, call: nat, env: Envelope, verdict: Option<Verdict>, t: Tier)
    requires AcceptedOk(s, t) && (call in s.calls ==> s.calls[call] == Call(env, None))
    ensures AcceptedOk(Settle(s, call, env, verdict), t)
  {
    var s' := Settle(s, call, env, verdict);
    assert s'.Lane(t) == s.Lane(t);
    forall n | 0 <= n < |s'.Lane(t).accepted| ensures SentFrame(s', t, s'.Lane(t).accepted[n]) {
      assert SentFrame(s, t, s.Lane(t).accepted[n]);
    }
  }

  /** A step that leaves a tier and the pump's hold on it alone keeps the tier's invariant. */
  lemma SameLane(clock: Clock, s: State, s': State, t: Tier)
    requires LaneOk(clock, s, t) && s'.Lane(t) == s.Lane(t)
    requires InFlight(s', t) == InFlight(s, t)
    requires s'.pump == s.pump || (!s'.pump.Flushing? && !s.pump.Stopped?)
             || (s'.pump.Flushing? && s'.pump.tier != t && !s.pump.Stopped?)
    ensures LaneOk(clock, s', t)
  {
    forall k | 0 <= k < |s.Lane(t).done| ensures OutcomeOk(clock, s', t, k) {
      assert OutcomeOk(clock, s, t, k);
    }
  }

  /** A step that touches no caller and accepts nothing keeps what holds of the calls. */
  lemma SameCalls(s: State, s': State)
    requires CallsOk(s) && forall t :: AcceptedOk(s, t)
    requires s'.calls == s.calls && (s.pump.Stopped? ==> s'.pump.Stopped?)
    requires forall t :: s'.Lane(t).accepted == s.Lane(t).accepted
    ensures CallsOk(s') && forall t :: AcceptedOk(s', t)
  {
    forall t ensures AcceptedOk(s', t) {
      assert AcceptedOk(s, t);
      assert forall n :: 0 <= n < |s.Lane(t).accepted| ==> SentFrame(s, t, s.Lane(t).accepted[n]);
    }
    forall c | c in s'.calls ensures CallOk(s', c) {
      assert CallOk(s, c);
    }
  }

  lemma TakeKeeps(clock: Clock, s: State, t: Tier, now: nat, serialises: bool)
    requires Inv(clock, s) && s.pump.Choosing? && s.Lane(t).queue != []
    ensures Inv(clock, TakeFrame(clock, s, t, now, serialises))
  {
    var s' := TakeFrame(clock, s, t, now, serialises);
    forall u ensures LaneOk(clock, s', u) {
      if u == t {
        TakenLane(clock, s, t, now, serialises);
      } else {
        SameLane(clock, s, s', u);
      }
    }
    SameCalls(s, s');
  }

  lemma TakenLane(clock: Clock, s: State, t: Tier, now: nat, serialises: bool)
    requires LaneOk(clock, s, t) && s.pump.Choosing? && s.Lane(t).queue != []
    ensures LaneOk(clock, TakeFrame(clock, s, t, now, serialises), t)
  {
    var s' := TakeFrame(clock, s, t, now, serialises);
    var lane, lane' := s.Lane(t), s'.Lane(t);
    assert lane.queue == [lane.queue[0]] + lane'.queue;
    if !serialises {
      assert FramesOf(lane'.done) == FramesOf(lane.done) + [lane.queue[0]];
    }
    forall k | 0 <= k < |lane'.done| ensures OutcomeOk(clock, s', t, k) {
      assert k < |lane.done| ==> OutcomeOk(clock, s, t, k);
    }
  }

  lemma FlushKeeps(clock: Clock, s: State, ok: bool)
    requires Inv(clock, s) && s.pump.Flushing?
    ensures Inv(clock, FlushedStep(s, ok))
  {
    var s' := FlushedStep(s, ok);
    forall u ensures LaneOk(clock, s', u) {
      if u == s.pump.tier {
        FlushedLane(clock, s, ok);
      } else {
        SameLane(clock, s, s', u);
      }
    }
    SameCalls(s, s');
  }

  lemma FlushedLane(clock: Clock, s: State, ok: bool)
    requires s.pump.Flushing? && LaneOk(clock, s, s.pump.tier)
    ensures LaneOk(clock, FlushedStep(s, ok), s.pump.tier)
  {
    var t, s' := s.pump.tier, FlushedStep(s, ok);
    var lane, lane' := s.Lane(t), s'.Lane(t);
    assert FramesOf(lane'.done) == FramesOf(lane.done) + [s.pump.frame];
    forall k | 0 <= k < |lane'.done| ensures OutcomeOk(clock, s', t, k) {
      assert k < |lane.done| ==> OutcomeOk(clock, s, t, k);
    }
  }

  /** A step of the pump that moves no frame. */
  lemma QuietKeeps(clock: Clock, s: State, s': State)
    requires Inv(clock, s) && s'.calls == s.calls && |s'.inbox| <= INBOUND_CAPACITY
    requires s'.ctl == s.ctl && s'.alert == s.alert && s'.bulk == s.bulk
    requires s'.pump == s.pump || (!s.pump.Flushing? && !s'.pump.Flushing? && !s.pump.Stopped?)
    ensures Inv(clock, s')
  {
    forall t ensures LaneOk(clock, s', t) {
      SameLane(clock, s, s', t);
    }
    SameCalls(s, s');
  }

  lemma SelectKeeps(clock: Clock, s: State, now: nat, serialises: bool)
    requires Inv(clock, s) && s.pump.Choosing? && !Choose(s).Nothing?
    ensures Inv(clock, SelectStep(clock, s, now, serialises))
  {
    var s' := SelectStep(clock, s, now, serialises);
    match Choose(s)
    case Take(t) =>
      var mid := TakeFrame(clock, s, t, now, serialises);
      TakeKeeps(clock, s, t, now, serialises);
      QuietKeeps(clock, mid, s');
    case _ =>
      QuietKeeps(clock, s, s');
  }

  lemma StepKeeps(clock: Clock, s: State, e: Event)
    requires Inv(clock, s) && Enabled(s, e)
    ensures Inv(clock, Apply(clock, s, e))
  {
    match e
    case Send(call, env) =>
      if TierOf(env.body).Bulk? && !s.pump.Stopped? && |s.bulk.queue| < Capacity(Bulk) {
        EnqueueKeeps(clock, s, call, env);
      } else {
        SettleKeeps(clock, s, call, env, SendStep(s, call, env).calls[call].verdict);
      }
    case Admit(call) => EnqueueKeeps(clock, s, call, s.calls[call].env);
    case Refuse(call) =>
      assert CallOk(s, call);
      SettleKeeps(clock, s, call, s.calls[call].env, Some(ChannelClosed));
    case TimeOut(call) =>
      assert CallOk(s, call);
      SettleKeeps(clock, s, call, s.calls[call].env, Some(TimedOut));
    case Select(now, serialises) => SelectKeeps(clock, s, now, serialises);
    case Flushed(ok) => FlushKeeps(clock, s, ok);
    case Arrive(_) => QuietKeeps(clock, s, Apply(clock, s, e));
    case Answered => QuietKeeps(clock, s, Apply(clock, s, e));
    case Receive => QuietKeeps(clock, s, Apply(clock, s, e));
    case DropInbox => QuietKeeps(clock, s, Apply(clock, s, e));
    case DropNext => QuietKeeps(clock, s, Apply(clock, s, e));
  }

  lemma {:induction false} Invariant(clock: Clock, run: seq<Event>)
    requires Exec(clock, INITIAL, run).Some?
    ensures Inv(clock, Exec(clock, INITIAL, run).value)
  {
    if run != [] {
      Invariant(clock, run[..|run| - 1]);
      StepKeeps(clock, Exec(clock, INITIAL, run[..|run| - 1]).value, run[|run| - 1]);
    }
  }

  // ----- conservation and honest answers -----

  /** In every run each tier keeps order and loses nothing between acceptance and disposal. */
  lemma TiersConserve(clock: Clock, run: seq<Event>, t: Tier)
    requires Exec(clock, INITIAL, run).Some?
    ensures var s := Exec(clock, INITIAL, run).value;
            && Conserved(s, t)
            && |s.Lane(t).queue| <= Capacity(t)
            && DistinctCalls(s.Lane(t).accepted)
  {
    Invariant(clock, run);
    var s := Exec(clock, INITIAL, run).value;
    assert LaneOk(clock, s, t) && AcceptedOk(s, t);
  }

  /** The n-th accepted frame is behind the pump: written, or dropped because it could not be serialised. */
  predicate Disposed(clock: Clock, s: State, t: Tier, n: nat)
    requires n < |s.Lane(t).accepted|
  {
    var done, f := s.Lane(t).done, s.Lane(t).accepted[n];
    && n < |done| && done[n].frame == f
    && (done[n].Unserialisable? || (done[n].Written? && WireOf(clock, t, f, done[n].wire, done[n].at)))
  }

  /** The n-th accepted frame is the one being written, or it is queued at its place. */
  predicate Pending(s: State, t: Tier, n: nat)
    requires n < |s.Lane(t).accepted|
  {
    var lane, f := s.Lane(t), s.Lane(t).accepted[n];
    var q := n - |lane.done| - |InFlight(s, t)|;
    if q < 0 then n >= |lane.done| && InFlight(s, t) == [f] else q < |lane.queue| && lane.queue[q] == f
  }

  /** While the pump lives, an accepted frame was written, could not be serialised, or is still to come. */
  lemma NothingIsLostWhileAlive(clock: Clock, run: seq<Event>, t: Tier, n: nat)
    requires Exec(clock, INITIAL, run).Some?
    requires var s := Exec(clock, INITIAL, run).value; s.Alive() && n < |s.Lane(t).accepted|
    ensures Disposed(clock, Exec(clock, INITIAL, run).value, t, n) || Pending(Exec(clock, INITIAL, run).value, t, n)
  {
    Invariant(clock, run);
    var s := Exec(clock, INITIAL, run).value;
    assert LaneOk(clock, s, t);
    FateOfFrame(clock, s, t, n);
  }

  lemma FateOfFrame(clock: Clock, s: State, t: Tier, n: nat)
    requires LaneOk(clock, s, t) && s.Alive() && n < |s.Lane(t).accepted|
    ensures Disposed(clock, s, t, n) || Pending(s, t, n)
  {
    hide WireOf;
    var lane := s.Lane(t);
    var handled := FramesOf(lane.done);
    if n < |lane.done| {
      assert OutcomeOk(clock, s, t, n);
      assert lane.accepted[n] == handled[n] == lane.done[n].frame;
    } else {
      assert lane.accepted[n] == (InFlight(s, t) + lane.queue)[n - |lane.done|];
    }
  }

  /** A write that failed is its tier's last outcome, and the pump has stopped. */
  lemma FailedWriteIsLast(clock: Clock, run: seq<Event>, t: Tier, k: nat)
    requires Exec(clock, INITIAL, run).Some?
    requires var s := Exec(clock, INITIAL, run).value; k < |s.Lane(t).done| && s.Lane(t).done[k].WriteFailed?
    ensures var s := Exec(clock, INITIAL, run).value; s.pump.Stopped? && k == |s.Lane(t).done| - 1
  {
    Invariant(clock, run);
    var s := Exec(clock, INITIAL, run).value;
    assert LaneOk(clock, s, t) && OutcomeOk(clock, s, t, k);
  }

  predicate FailedAt(s: State, t: Tier, k: nat) {
    k < |s.Lane(t).done| && s.Lane(t).done[k].WriteFailed?
  }

  /** On all tiers together at most one frame is ever lost to a failed write. */
  lemma {:induction false} OneFailedWrite(clock: Clock, run: seq<Event>, t: Tier, k: nat, u: Tier, j: nat)
    requires Exec(clock, INITIAL, run).Some?
    requires FailedAt(Exec(clock, INITIAL, run).value, t, k) && FailedAt(Exec(clock, INITIAL, run).value, u, j)
    ensures t == u && k == j
  {
    hide Enabled;
    var init := run[..|run| - 1];
    var s, e := Exec(clock, INITIAL, init).value, run[|run| - 1];
    if e.Flushed? {
      FlushingIsNotStopped(s, e);
      NoFailureYet(clock, init, t);
      NoFailureYet(clock, init, u);
      FirstFailure(s, e.ok, t, k);
      FirstFailure(s, e.ok, u, j);
    } else {
      hide Apply;
      FailuresAreOld(clock, s, e, t, k);
      FailuresAreOld(clock, s, e, u, j);
      OneFailedWrite(clock, init, t, k, u, j);
    }
  }

  lemma FlushingIsNotStopped(s: State, e: Event)
    requires Enabled(s, e) && e.Flushed?
    ensures s.pump.Flushing?
  {
  }

  /** A failed write fails the frame in flight, and no other. */
  lemma FirstFailure(s: State, ok: bool, t: Tier, k: nat)
    requires s.pump.Flushing? && FailedAt(FlushedStep(s, ok), t, k) && !FailedAt(s, t, k)
    ensures t == s.pump.tier && k == |s.Lane(t).done|
  {
  }

  lemma NoFailureYet(clock: Clock, run: seq<Event>, t: Tier)
    requires Exec(clock, INITIAL, run).Some? && !Exec(clock, INITIAL, run).value.pump.Stopped?
    ensures forall k: nat :: !FailedAt(Exec(clock, INITIAL, run).value, t, k)
  {
    forall k: nat ensures !FailedAt(Exec(clock, INITIAL, run).value, t, k) {
      if FailedAt(Exec(clock, INITIAL, run).value, t, k) {
        FailedWriteIsLast(clock, run, t, k);
        assert false;
      }
    }
  }

  lemma FailuresAreOld(clock: Clock, s: State, e: Event, t: Tier, k: nat)
    requires Enabled(s, e) && !e.Flushed? && FailedAt(Apply(clock, s, e), t, k)
    ensures FailedAt(s, t, k)
  {
    if e.Select? {
      SelectOutcomes(clock, s, e.now, e.serialises, t);
    }
  }

  lemma SelectOutcomes(clock: Clock, s: State, now: nat, serialises: bool, t: Tier)
    requires !Choose(s).Nothing?
    ensures var s' := SelectStep(clock, s, now, serialises);
            && s.Lane(t).done <= s'.Lane(t).done
            && forall k: nat :: |s.Lane(t).done| <= k < |s'.Lane(t).done| ==> s'.Lane(t).done[k].Unserialisable?
  {
  }

  /** The frame of `call` was taken into some tier. */
  ghost predicate WasAccepted(s: State, call: nat) {
    exists t, n :: 0 <= n < |s.Lane(t).accepted| && s.Lane(t).accepted[n].call == call
  }

  /**
   What a caller may conclude. A frame was accepted exactly when its call ended in
   `Sent`, and then stands in the lane of its kind. Only sightings and live-view
   frames are ever shed; they are answered at once and never time out. A channel
   is reported closed only once the pump has stopped.
   */
  lemma AnswersAreHonest(clock: Clock, run: seq<Event>, call: nat)
    requires Exec(clock, INITIAL, run).Some? && call in Exec(clock, INITIAL, run).value.calls
    ensures var s := Exec(clock, INITIAL, run).value;
            var c := s.calls[call];
            && (WasAccepted(s, call) <==> c.verdict == Some(Sent))
            && (c.verdict == Some(Sent) ==> Frame(call, c.env) in KindLane(s, c.env.body).accepted)
            && (c.verdict == Some(Shed) ==> BestEffort(c.env.body))
            && (BestEffort(c.env.body) ==> c.verdict.Some? && c.verdict != Some(TimedOut))
            && (c.verdict == Some(ChannelClosed) ==> s.pump.Stopped?)
  {
    Invariant(clock, run);
    var s := Exec(clock, INITIAL, run).value;
    assert CallOk(s, call);
    if t, n :| 0 <= n < |s.Lane(t).accepted| && s.Lane(t).accepted[n].call == call {
      assert AcceptedOk(s, t) && SentFrame(s, t, s.Lane(t).accepted[n]);
    }
    if s.calls[call].verdict == Some(Sent) {
      var t := TierOf(s.calls[call].env.body);
      var n :| 0 <= n < |s.Lane(t).accepted| && s.Lane(t).accepted[n] == Frame(call, s.calls[call].env);
    }
  }

  /** The lane a body belongs in. */
  function KindLane(s: State, body: Body): Lane {
    if BestEffort(body) then s.bulk else if Security(body) then s.alert else s.ctl
  }

  ghost predicate AllKinds(frames: seq<Frame>, kind: Body -> bool) {
    forall n :: 0 <= n < |frames| ==> kind(frames[n].env.body)
  }

  /** The frames a lane has ever held: accepted, queued, disposed of. */
  ghost predicate LaneKinds(lane: Lane, kind: Body -> bool) {
    AllKinds(lane.accepted, kind) && AllKinds(lane.queue, kind) && AllKinds(FramesOf(lane.done), kind)
  }

  /**
   In every run the bulk lane holds sightings and live-view frames only, the alert
   lane alerts and clip receipts only, and the control lane everything else; each
   lane has its own bound.
   */
  lemma LanesHoldTheirKinds(clock: Clock, run: seq<Event>)
    requires Exec(clock, INITIAL, run).Some?
    ensures var s := Exec(clock, INITIAL, run).value;
            && LaneKinds(s.bulk, BestEffort) && |s.bulk.queue| <= 32
            && LaneKinds(s.alert, Security) && |s.alert.queue| <= 64
            && LaneKinds(s.ctl, body => !BestEffort(body) && !Security(body)) && |s.ctl.queue| <= 64
  {
    Invariant(clock, run);
    var s := Exec(clock, INITIAL, run).value;
    LaneKeepsKind(clock, s, Bulk, BestEffort);
    LaneKeepsKind(clock, s, Alert, Security);
    LaneKeepsKind(clock, s, Control, body => !BestEffort(body) && !Security(body));
  }

  lemma LaneKeepsKind(clock: Clock, s: State, t: Tier, kind: Body -> bool)
    requires LaneOk(clock, s, t) && AcceptedOk(s, t)
    requires forall body :: TierOf(body) == t ==> kind(body)
    ensures LaneKinds(s.Lane(t), kind) && |s.Lane(t).queue| <= Capacity(t)
  {
    var lane := s.Lane(t);
    var before := FramesOf(lane.done) + InFlight(s, t);
    forall n | 0 <= n < |lane.accepted| ensures kind(lane.accepted[n].env.body) {
      assert SentFrame(s, t, lane.accepted[n]);
    }
    forall n | 0 <= n < |lane.queue| ensures kind(lane.queue[n].env.body) {
      assert lane.accepted[|before| + n] == lane.queue[n];
    }
    forall n | 0 <= n < |lane.done| ensures kind(FramesOf(lane.done)[n].env.body) {
      assert lane.accepted[n] == before[n] == FramesOf(lane.done)[n];
    }
  }

  /** A frame is shed exactly when it is best-effort, its queue is full and the pump has not stopped. */
  lemma ShedIffFull(clock: Clock, run: seq<Event>, call: nat, env: Envelope)
    requires Exec(clock, INITIAL, run).Some? && Enabled(Exec(clock, INITIAL, run).value, Send(call, env))
    ensures var s := Exec(clock, INITIAL, run).value;
            Apply(clock, s, Send(call, env)).calls[call].verdict == Some(Shed)
            <==> BestEffort(env.body) && s.Alive() && |s.bulk.queue| == 32
  {
    Invariant(clock, run);
    var s := Exec(clock, INITIAL, run).value;
    assert LaneOk(clock, s, Bulk);
  }

  /**
   What reaches the wire is the envelope the caller offered; only a heartbeat
   differs, and only in the two time stamps, which say when the pump took it.
   */
  lemma WireIsFaithful(clock: Clock, run: seq<Event>, t: Tier, k: nat)
    requires Exec(clock, INITIAL, run).Some?
    requires var s := Exec(clock, INITIAL, run).value; k < |s.Lane(t).done| && s.Lane(t).done[k].Written?
    ensures var s := Exec(clock, INITIAL, run).value;
            var w := s.Lane(t).done[k];
            && k < |s.Lane(t).accepted| && w.frame == s.Lane(t).accepted[k]
            && (!w.frame.env.body.Heartbeat? ==> w.wire == w.frame.env)
            && (w.frame.env.body.Heartbeat? ==>
                  t.Control? && w.wire == Envelope(clock.rfc3339(w.at), Heartbeat(Some(w.at), w.frame.env.body.text)))
  {
    Invariant(clock, run);
    var s := Exec(clock, INITIAL, run).value;
    assert LaneOk(clock, s, t) && AcceptedOk(s, t) && OutcomeOk(clock, s, t, k);
    assert FramesOf(s.Lane(t).done)[k] == s.Lane(t).done[k].frame;
    assert SentFrame(s, t, s.Lane(t).accepted[k]);
  }

  // ----- strict priority -----

  function Takes(choices: seq<Choice>, t: Tier): (n: nat)
    ensures n <= |choices|
  {
    if choices == [] then 0
    else Takes(choices[..|choices| - 1], t) + if choices[|choices| - 1] == Take(t) then 1 else 0
  }

  lemma TakesPush(choices: seq<Choice>, c: Choice, t: Tier)
    ensures Takes(choices + [c], t) == Takes(choices, t) + if c == Take(t) then 1 else 0
  {
    assert (choices + [c])[..|choices|] == choices;
  }

  /** `c` ranks below taking from tier `t` in the select's order. */
  predicate RanksBelow(c: Choice, t: Tier) {
    match t
    case Control => c == Take(Alert) || c == Take(Bulk) || c.Inbound? || c.SendersGone?
    case Alert => c == Take(Bulk) || c.Inbound?
    case Bulk => false
  }

  /** The choices a single step adds. */
  function Added(s: State, e: Event): (r: seq<Choice>) {
    if e.Select? then [Choose(s)] else []
  }

  /** What one step does to a tier: only taking from it shortens its queue or moves it on. */
  lemma StepMoves(clock: Clock, s: State, e: Event, t: Tier)
    requires Enabled(s, e)
    ensures var s' := Apply(clock, s, e);
            && s'.choices == s.choices + Added(s, e)
            && |s'.Lane(t).queue| + Takes(Added(s, e), t) >= |s.Lane(t).queue|
            && Progress(s', t) == Progress(s, t) + Takes(Added(s, e), t)
            && s.Lane(t).accepted <= s'.Lane(t).accepted
            && (s'.Pumping() ==> s.Pumping())
  {
    hide Takes, SelectStep, Choose, FlushedStep, Enqueue;
    AddedTakes(s, e, t);
    match e
    case Select(now, serialises) => SelectMoves(clock, s, now, serialises, t);
    case Flushed(ok) => FlushMoves(s, ok, t);
    case Send(call, env) => EnqueueMoves(s, call, env, t);
    case Admit(call) => EnqueueMoves(s, call, s.calls[call].env, t);
    case _ =>
  }

  lemma FlushMoves(s: State, ok: bool, t: Tier)
    requires s.pump.Flushing?
    ensures var s' := FlushedStep(s, ok);
            && s'.choices == s.choices && s'.Lane(t).queue == s.Lane(t).queue
            && Progress(s', t) == Progress(s, t) && s'.Lane(t).accepted == s.Lane(t).accepted
  {
  }

  lemma EnqueueMoves(s: State, call: nat, env: Envelope, t: Tier)
    ensures var s' := Enqueue(s, call, env);
            && s'.choices == s.choices && s'.pump == s.pump
            && s.Lane(t).queue <= s'.Lane(t).queue && s.Lane(t).accepted <= s'.Lane(t).accepted
            && Progress(s', t) == Progress(s, t)
  {
  }

  lemma AddedTakes(s: State, e: Event, t: Tier)
    ensures Takes(Added(s, e), t) == if e.Select? && Choose(s) == Take(t) then 1 else 0
  {
    TakesPush([], Choose(s), t);
    assert [] + [Choose(s)] == [Choose(s)];
  }

  lemma SelectMoves(clock: Clock, s: State, now: nat, serialises: bool, t: Tier)
    requires s.pump.Choosing? && !Choose(s).Nothing?
    ensures var s' := SelectStep(clock, s, now, serialises);
            var took := if Choose(s) == Take(t) then 1 else 0;
            && s'.choices == s.choices + [Choose(s)]
            && |s'.Lane(t).queue| == |s.Lane(t).queue| - took
            && Progress(s', t) == Progress(s, t) + took
            && s'.Lane(t).accepted == s.Lane(t).accepted
  {
    hide TakeFrame, TakeIncoming;
    match Choose(s)
    case Take(u) => TakeMoves(clock, s, u, now, serialises, t);
    case Inbound => IncomingMoves(s, t);
    case _ =>
  }

  lemma TakeMoves(clock: Clock, s: State, u: Tier, now: nat, serialises: bool, t: Tier)
    requires s.pump.Choosing? && s.Lane(u).queue != []
    ensures var s' := TakeFrame(clock, s, u, now, serialises);
            var took := if u == t then 1 else 0;
            && s'.choices == s.choices
            && |s'.Lane(t).queue| == |s.Lane(t).queue| - took
            && Progress(s', t) == Progress(s, t) + took
            && s'.Lane(t).accepted == s.Lane(t).accepted
  {
  }

  lemma IncomingMoves(s: State, t: Tier)
    requires s.pump.Choosing? && s.incoming != []
    ensures var s' := TakeIncoming(s);
            s'.choices == s.choices && s'.Lane(t) == s.Lane(t) && Progress(s', t) == Progress(s, t)
  {
  }

  lemma {:induction false} TakesAdd(c: seq<Choice>, d: seq<Choice>, t: Tier)
    ensures Takes(c + d, t) == Takes(c, t) + Takes(d, t)
  {
    if d == [] {
      assert c + d == c;
    } else {
      TakesAdd(c, d[..|d| - 1], t);
      assert (c + d)[..|c + d| - 1] == c + d[..|d| - 1];
    }
  }

  /** The choices `run` adds to those of `s`. */
  function ChoicesOf(clock: Clock, s: State, run: seq<Event>): seq<Choice>
    requires Exec(clock, s, run).Some?
  {
    if run == [] then []
    else
      var init := run[..|run| - 1];
      ChoicesOf(clock, s, init) + Added(Exec(clock, s, init).value, run[|run| - 1])
  }

  lemma {:induction false} ChoicesGrow(clock: Clock, s: State, run: seq<Event>)
    requires Exec(clock, s, run).Some?
    ensures Exec(clock, s, run).value.choices == s.choices + ChoicesOf(clock, s, run)
  {
    hide Apply, Enabled;
    if run != [] {
      var init := run[..|run| - 1];
      ChoicesGrow(clock, s, init);
      StepMoves(clock, Exec(clock, s, init).value, run[|run| - 1], Control);
    }
  }

  /** Over a run, a tier's queue shrinks and its progress grows by exactly what was taken from it. */
  lemma {:induction false} RunMoves(clock: Clock, s: State, run: seq<Event>, t: Tier)
    requires Exec(clock, s, run).Some?
    ensures var s', taken := Exec(clock, s, run).value, Takes(ChoicesOf(clock, s, run), t);
            && |s'.Lane(t).queue| + taken >= |s.Lane(t).queue|
            && Progress(s', t) == Progress(s, t) + taken
            && s.Lane(t).accepted <= s'.Lane(t).accepted
            && (s'.Pumping() ==> s.Pumping())
  {
    hide Apply, Enabled, Progress;
    if run != [] {
      var init := run[..|run| - 1];
      var mid, e := Exec(clock, s, init).value, run[|run| - 1];
      RunMoves(clock, s, init, t);
      StepMoves(clock, mid, e, t);
      TakesAdd(ChoicesOf(clock, s, init), Added(mid, e), t);
    }
  }

  /**
   Strict priority over runs: before the pump makes any choice that ranks below a
   tier, it has taken at least every frame that tier had queued at the start,
   whatever the callers, the peer and the owner do meanwhile.
   */
  lemma {:induction false} NoOvertaking(clock: Clock, s: State, run: seq<Event>, t: Tier, m: nat)
    requires Exec(clock, s, run).Some? && m < |ChoicesOf(clock, s, run)|
    requires RanksBelow(ChoicesOf(clock, s, run)[m], t)
    ensures Takes(ChoicesOf(clock, s, run)[..m], t) >= |s.Lane(t).queue|
  {
    hide Apply, Takes;
    var init := run[..|run| - 1];
    var made, all := ChoicesOf(clock, s, init), ChoicesOf(clock, s, run);
    if m < |made| {
      NoOvertaking(clock, s, init, t, m);
      assert all[..m] == made[..m];
    } else {
      RunMoves(clock, s, init, t);
      assert all[..m] == made;
    }
  }

  /** The moment of the m-th choice of `run`: which step it was and the state it was made in. */
  ghost predicate ChoiceAt(clock: Clock, s: State, run: seq<Event>, m: nat, k: nat) {
    && k < |run| && run[k].Select? && Exec(clock, s, run[..k]).Some?
    && |ChoicesOf(clock, s, run[..k])| == m
  }

  lemma {:induction false} FindChoice(clock: Clock, s: State, run: seq<Event>, m: nat) returns (k: nat)
    requires Exec(clock, s, run).Some? && m < |ChoicesOf(clock, s, run)|
    ensures ChoiceAt(clock, s, run, m, k)
    ensures ChoicesOf(clock, s, run)[m] == Choose(Exec(clock, s, run[..k]).value)
  {
    hide Apply, Choose;
    var init := run[..|run| - 1];
    if m < |ChoicesOf(clock, s, init)| {
      k := FindChoice(clock, s, init, m);
      assert run[..k] == init[..k];
    } else {
      k := |run| - 1;
    }
  }

  /** `c` is ready, and nothing above it is: close, control, senders gone, alert, inbound, bulk. */
  predicate FirstReady(s: State, c: Choice) {
    match c
    case CloseSignal => s.gone >= 5
    case Take(Control) => s.gone < 5 && s.ctl.queue != []
    case SendersGone => 1 <= s.gone < 5 && s.ctl.queue == []
    case Take(Alert) => s.gone == 0 && s.ctl.queue == [] && s.alert.queue != []
    case Inbound => s.gone == 0 && s.ctl.queue == [] && s.alert.queue == [] && s.incoming != []
    case Take(Bulk) =>
      s.gone == 0 && s.ctl.queue == [] && s.alert.queue == [] && s.incoming == [] && s.bulk.queue != []
    case Nothing => false
  }

  lemma ChooseIsFirstReady(s: State)
    ensures Choose(s).Nothing? || FirstReady(s, Choose(s))
  {
  }

  /** Every choice of every run took a branch that was ready when every branch above it was not. */
  lemma ChoiceIsFirstReady(clock: Clock, s: State, run: seq<Event>, m: nat) returns (k: nat)
    requires Exec(clock, s, run).Some? && m < |ChoicesOf(clock, s, run)|
    ensures ChoiceAt(clock, s, run, m, k)
    ensures FirstReady(Exec(clock, s, run[..k]).value, ChoicesOf(clock, s, run)[m])
  {
    k := FindChoice(clock, s, run, m);
    PrefixRuns(clock, s, run, k);
  }

  /** How far the pump has worked through a tier: disposed of, or on its way out. */
  function Progress(s: State, t: Tier): nat {
    |s.Lane(t).done| + |InFlight(s, t)|
  }

  /** As long as control frames wait and the pump runs, every choice takes one of them. */
  lemma {:induction false} ControlMonopoly(clock: Clock, s: State, run: seq<Event>)
    requires Exec(clock, s, run).Some? && Exec(clock, s, run).value.Pumping()
    ensures var made := ChoicesOf(clock, s, run);
            Takes(made, Control) >= if |made| <= |s.ctl.queue| then |made| else |s.ctl.queue|
  {
    if run != [] {
      var init := run[..|run| - 1];
      var mid, e := Exec(clock, s, init).value, run[|run| - 1];
      MonopolyStep(clock, mid, e);
      ControlMonopoly(clock, s, init);
      RunMoves(clock, s, init, Control);
      TakesAdd(ChoicesOf(clock, s, init), Added(mid, e), Control);
    }
  }

  lemma MonopolyStep(clock: Clock, s: State, e: Event)
    requires Enabled(s, e) && Apply(clock, s, e).Pumping()
    ensures s.Pumping()
    ensures Takes(Added(s, e), Control) >= if s.ctl.queue != [] then |Added(s, e)| else 0
  {
    StepMoves(clock, s, e, Control);
  }

  /**
   Bounded overtaking: the control frame with `k` frames ahead of it in the queue
   has left the queue after `k + 1` choices of the pump, for any load on the other
   tiers; and once the pump is back at its select, the frame has been disposed of.
   */
  lemma ControlIsPrompt(clock: Clock, start: seq<Event>, run: seq<Event>, n: nat)
    requires Exec(clock, INITIAL, start).Some?
    requires var s := Exec(clock, INITIAL, start).value;
             && Progress(s, Control) <= n < |s.ctl.accepted|
             && Exec(clock, s, run).Some? && Exec(clock, s, run).value.Pumping()
             && |ChoicesOf(clock, s, run)| > n - Progress(s, Control)
    ensures var s, s' := Exec(clock, INITIAL, start).value, Exec(clock, Exec(clock, INITIAL, start).value, run).value;
            && Progress(s', Control) > n
            && n < |s'.ctl.accepted| && s'.ctl.accepted[n] == s.ctl.accepted[n]
            && (s'.pump.Choosing? ==> Disposed(clock, s', Control, n))
  {
    hide Apply, Enabled, Exec;
    var s := Exec(clock, INITIAL, start).value;
    var s' := Exec(clock, s, run).value;
    Invariant(clock, start);
    assert LaneOk(clock, s, Control);
    ControlMonopoly(clock, s, run);
    RunMoves(clock, s, run, Control);
    if s'.pump.Choosing? {
      ExecJoins(clock, INITIAL, start, run);
      NothingIsLostWhileAlive(clock, start + run, Control, n);
    }
  }

  /** Appending an enabled step to a run. */
  lemma RunStep(clock: Clock, s: State, run: seq<Event>, e: Event)
    requires Exec(clock, s, run).Some? && Enabled(Exec(clock, s, run).value, e)
    ensures Exec(clock, s, run + [e]) == Some(Apply(clock, Exec(clock, s, run).value, e))
  {
    hide Apply, Enabled;
    var longer := run + [e];
    assert longer[..|longer| - 1] == run;
  }

  /** A prefix of a run is a run, and the step after it is enabled. */
  lemma {:induction false} PrefixRuns(clock: Clock, s: State, run: seq<Event>, k: nat)
    requires Exec(clock, s, run).Some? && k <= |run|
    ensures Exec(clock, s, run[..k]).Some?
    ensures k < |run| ==> Enabled(Exec(clock, s, run[..k]).value, run[k])
    ensures k < |run| ==> Exec(clock, s, run[..k + 1]) == Some(Apply(clock, Exec(clock, s, run[..k]).value, run[k]))
    decreases |run| - k
  {
    hide Apply, Enabled;
    if k < |run| {
      PrefixRuns(clock, s, run, k + 1);
      assert run[..k + 1][..k] == run[..k];
    } else {
      assert run[..k] == run;
    }
  }

  lemma {:induction false} ExecJoins(clock: Clock, s: State, first: seq<Event>, second: seq<Event>)
    requires Exec(clock, s, first).Some?
    ensures Exec(clock, s, first + second) == Exec(clock, Exec(clock, s, first).value, second)
  {
    var all := first + second;
    if second == [] {
      assert all == first;
    } else {
      ExecJoins(clock, s, first, second[..|second| - 1]);
      assert all[..|all| - 1] == first + second[..|second| - 1];
    }
  }
}
