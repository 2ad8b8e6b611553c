/**
 The uplink: three bounded queues of outbound envelopes that one pump drains onto
 the socket in strict order, with the inbound stream ranked between them. Callers,
 the pump, the peer and the connection's owner interleave as the steps of one
 state machine.
 */
module Uplink {
  import opened Common

  datatype Tier = Control | Alert | Bulk

  datatype Body =
    | EntitySighting(text: string)
    | EntitySightingBatch(text: string)
    | LbrFrame(text: string)
    | AlertRaised(text: string)
    | ClipReplicated(text: string)
    | Heartbeat(edgeTs: Option<nat>, text: string)
    | OtherBody(kind: nat, text: string)

  datatype Envelope = Envelope(ts: string, body: Body)

  function TierOf(body: Body): Tier {
    match body
    case EntitySighting(_) => Bulk
    case EntitySightingBatch(_) => Bulk
    case LbrFrame(_) => Bulk
    case AlertRaised(_) => Alert
    case ClipReplicated(_) => Alert
    case Heartbeat(_, _) => Control
    case OtherBody(_, _) => Control
  }

  /** Sightings and live-view frames: what may be dropped. */
  predicate BestEffort(body: Body) {
    body.EntitySighting? || body.EntitySightingBatch? || body.LbrFrame?
  }

  /** Security alerts and clip receipts. */
  predicate Security(body: Body) {
    body.AlertRaised? || body.ClipReplicated?
  }

  function Capacity(t: Tier): nat {
    if t.Bulk? then 32 else 64
  }

  const INBOUND_CAPACITY: nat := 32

  /** How an instant is written into an envelope's header. */
  datatype Clock = Clock(rfc3339: nat -> string)

  /** A heartbeat is stamped with the instant the pump takes it; nothing else changes. */
  function StampAtFlush(clock: Clock, env: Envelope, now: nat): Envelope {
    if env.body.Heartbeat? then Envelope(clock.rfc3339(now), env.body.(edgeTs := Some(now))) else env
  }

  /** An envelope together with the `send` call that offered it. */
  datatype Frame = Frame(call: nat, env: Envelope)

  /** What became of a frame the pump took. */
  datatype Outcome =
    | Written(frame: Frame, wire: Envelope, at: nat)
    | Unserialisable(frame: Frame)
    | WriteFailed(frame: Frame)

  /** One tier: its queue, and the history of what it took in and what left it. */
  datatype Lane = Lane(queue: seq<Frame>, accepted: seq<Frame>, done: seq<Outcome>)

  /** `Sent` and `Shed` are both a success to the caller. */
  datatype Verdict = Sent | Shed | ChannelClosed | TimedOut {
    predicate IsOk() {
      Sent? || Shed?
    }
  }

  datatype Call = Call(env: Envelope, verdict: Option<Verdict>)

  datatype Incoming =
    | Text(parsed: Option<Envelope>)
    | Ping
    | RemoteClose
    | OtherMessage
    | ReadError
    | StreamEnd

  datatype Pump =
    | Choosing
    | Flushing(tier: Tier, frame: Frame, wire: Envelope, at: nat)
    | Answering
    | Closing
    | Stopped

  /** Which branch of the select ran. */
  datatype Choice =
    | CloseSignal
    | Take(tier: Tier)
    | SendersGone
    | Inbound
    | Nothing

  /**
   `gone` counts the fields of the connection already dropped, in their order:
   the three senders, the inbound receiver, the close signal.
   */
  datatype State = State(
    ctl: Lane,
    alert: Lane,
    bulk: Lane,
    incoming: seq<Incoming>,
    inbox: seq<Envelope>,
    inboxOpen: bool,
    gone: nat,
    pump: Pump,
    calls: map<nat, Call>,
    choices: seq<Choice>
  ) {
    function Lane(t: Tier): Lane {
      match t
      case Control => ctl
      case Alert => alert
      case Bulk => bulk
    }

    function WithLane(t: Tier, lane: Lane): State {
      match t
      case Control => this.(ctl := lane)
      case Alert => this.(alert := lane)
      case Bulk => this.(bulk := lane)
    }

    predicate Alive() {
      !pump.Stopped?
    }

    /** The pump still takes frames: it has neither stopped nor begun to close. */
    predicate Pumping() {
      !pump.Stopped? && !pump.Closing?
    }
  }

  const EMPTY: Lane := Lane([], [], [])

  const INITIAL: State := State(EMPTY, EMPTY, EMPTY, [], [], true, 0, Choosing, map[], [])

  datatype Event =
    | Send(call: nat, env: Envelope)
    | Admit(call: nat)
    | Refuse(call: nat)
    | TimeOut(call: nat)
    | Arrive(msg: Incoming)
    | Select(now: nat, serialises: bool)
    | Flushed(ok: bool)
    | Answered
    | Receive
    | DropInbox
    | DropNext

  // ----- the biased select -----

  function Choose(s: State): Choice {
    if s.gone >= 5 then CloseSignal
    else if s.ctl.queue != [] then Take(Control)
    else if s.gone >= 1 then SendersGone
    else if s.alert.queue != [] then Take(Alert)
    else if s.incoming != [] then Inbound
    else if s.bulk.queue != [] then Take(Bulk)
    else Nothing
  }

  function TakeFrame(clock: Clock, s: State, t: Tier, now: nat, serialises: bool): State
    requires s.Lane(t).queue != []
  {
    var lane := s.Lane(t);
    var frame := lane.queue[0];
    var rest := lane.(queue := lane.queue[1..]);
    var wire := if t.Control? then StampAtFlush(clock, frame.env, now) else frame.env;
    if serialises then s.WithLane(t, rest).(pump := Flushing(t, frame, wire, now))
    else s.WithLane(t, rest.(done := lane.done + [Unserialisable(frame)]))
  }

  function TakeIncoming(s: State): State
    requires s.incoming != []
  {
    var msg, rest := s.incoming[0], s.(incoming := s.incoming[1..]);
    match msg
    case Text(Some(env)) =>
      if s.inboxOpen && |s.inbox| < INBOUND_CAPACITY then rest.(inbox := s.inbox + [env]) else rest
    case Text(None) => rest
    case OtherMessage => rest
    case Ping => rest.(pump := Answering)
    case RemoteClose => rest.(pump := Stopped)
    case ReadError => rest.(pump := Stopped)
    case StreamEnd => rest.(pump := Stopped)
  }

  function SelectStep(clock: Clock, s: State, now: nat, serialises: bool): State
    requires !Choose(s).Nothing?
  {
    var choice := Choose(s);
    var next := match choice
      case CloseSignal => s.(pump := Closing)
      case Take(t) => TakeFrame(clock, s, t, now, serialises)
      case SendersGone => s.(pump := Stopped)
      case Inbound => TakeIncoming(s);
    next.(choices := s.choices + [choice])
  }

  // ----- callers -----

  function Enqueue(s: State, call: nat, env: Envelope): State {
    var t := TierOf(env.body);
    var frame := Frame(call, env);
    var lane := s.Lane(t);
    s.WithLane(t, lane.(queue := lane.queue + [frame], accepted := lane.accepted + [frame]))
      .(calls := s.calls[call := Call(env, Some(Sent))])
  }

  function Settle(s: State, call: nat, env: Envelope, verdict: Option<Verdict>): State {
    s.(calls := s.calls[call := Call(env, verdict)])
  }

  /** A bulk frame is decided on the spot; the other tiers start to wait. */
  function SendStep(s: State, call: nat, env: Envelope): State {
    if !TierOf(env.body).Bulk? then Settle(s, call, env, None)
    else if s.pump.Stopped? then Settle(s, call, env, Some(ChannelClosed))
    else if |s.bulk.queue| >= Capacity(Bulk) then Settle(s, call, env, Some(Shed))
    else Enqueue(s, call, env)
  }

  predicate Waiting(s: State, call: nat) {
    call in s.calls && s.calls[call].verdict.None?
  }

  predicate Room(s: State, t: Tier) {
    |s.Lane(t).queue| < Capacity(t)
  }

  // ----- the machine -----

  predicate Enabled(s: State, e: Event) {
    match e
    case Send(call, _) => call !in s.calls && s.gone == 0
    case Admit(call) => Waiting(s, call) && !s.pump.Stopped? && Room(s, TierOf(s.calls[call].env.body))
    case Refuse(call) => Waiting(s, call) && s.pump.Stopped?
    case TimeOut(call) => Waiting(s, call)
    case Arrive(_) => true
    case Select(_, _) => s.pump.Choosing? && !Choose(s).Nothing?
    case Flushed(_) => s.pump.Flushing?
    case Answered => s.pump.Answering? || s.pump.Closing?
    case Receive => s.inbox != []
    case DropInbox => true
    case DropNext => s.gone < 5 && forall call :: call in s.calls ==> s.calls[call].verdict.Some?
  }

  function FlushedStep(s: State, ok: bool): State
    requires s.pump.Flushing?
  {
    var p := s.pump;
    var lane := s.Lane(p.tier);
    if ok then s.WithLane(p.tier, lane.(done := lane.done + [Written(p.frame, p.wire, p.at)])).(pump := Choosing)
    else s.WithLane(p.tier, lane.(done := lane.done + [WriteFailed(p.frame)])).(pump := Stopped)
  }

  function Apply(clock: Clock, s: State, e: Event): State
    requires Enabled(s, e)
  {
    match e
    case Send(call, env) => SendStep(s, call, env)
    case Admit(call) => Enqueue(s, call, s.calls[call].env)
    case Refuse(call) => Settle(s, call, s.calls[call].env, Some(ChannelClosed))
    case TimeOut(call) => Settle(s, call, s.calls[call].env, Some(TimedOut))
    case Arrive(msg) => s.(incoming := s.incoming + [msg])
    case Select(now, serialises) => SelectStep(clock, s, now, serialises)
    case Flushed(ok) => FlushedStep(s, ok)
    case Answered => s.(pump := if s.pump.Closing? then Stopped else Choosing)
    case Receive => s.(inbox := s.inbox[1..])
    case DropInbox => s.(inboxOpen := false)
    case DropNext => s.(gone := s.gone + 1)
  }

  /** The state `run` leads to from `s`, or nothing when some step was not enabled. */
  function Exec(clock: Clock, s: State, run: seq<Event>): Option<State> {
    if run == [] then Some(s)
    else
      var before := Exec(clock, s, run[..|run| - 1]);
      var e := run[|run| - 1];
      if before.Some? && Enabled(before.value, e) then Some(Apply(clock, before.value, e)) else None
  }
}
