/**
 The connection object: queues and pump in place. It carries the run of the uplink
 machine it has performed, so what every run keeps holds of the object.
 */
module Connection {
  import opened Common
  import opened Uplink
  import opened UplinkSafety

  class Tunnel {
    const clock: Clock
    var ctl: Lane
    var alert: Lane
    var bulk: Lane
    var incoming: seq<Incoming>
    var inbox: seq<Envelope>
    var inboxOpen: bool
    var gone: nat
    var pump: Pump
    var calls: map<nat, Call>
    ghost var choices: seq<Choice>

    /** The run performed so far. */
    ghost var run: seq<Event>

    ghost function Abstract(): State
      reads this
    {
      State(ctl, alert, bulk, incoming, inbox, inboxOpen, gone, pump, calls, choices)
    }

    ghost predicate Valid()
      reads this
    {
      Exec(clock, INITIAL, run) == Some(Abstract())
    }

    constructor (clock: Clock)
      ensures this.clock == clock && Abstract() == INITIAL && run == [] && Valid()
    {
      this.clock := clock;
      ctl, alert, bulk, incoming, inbox, inboxOpen, gone, pump := EMPTY, EMPTY, EMPTY, [], [], true, 0, Choosing;
      calls, choices, run := map[], [], [];
    }

    /** What has been done since `before` was the step `e`. */
    twostate predicate Did(e: Event)
      reads this
    {
      && old(Enabled(Abstract(), e))
      && Abstract() == Apply(clock, old(Abstract()), e)
      && run == old(run) + [e]
      && Valid()
    }

    // ----- callers -----

    /** A lane with one more frame accepted at the end of its queue. */
    static function Longer(lane: Lane, frame: Frame): Lane {
      Lane(lane.queue + [frame], lane.accepted + [frame], lane.done)
    }

    /** Put an accepted frame at the end of its tier's queue. */
    method Append(call: nat, env: Envelope)
      modifies this`ctl, this`alert, this`bulk, this`calls
      ensures Abstract() == Enqueue(old(Abstract()), call, env)
    {
      var frame := Frame(call, env);
      match TierOf(env.body) {
        case Control => ctl := ctl.(queue := ctl.queue + [frame], accepted := ctl.accepted + [frame]);
        case Alert => alert := alert.(queue := alert.queue + [frame], accepted := alert.accepted + [frame]);
        case Bulk => bulk := bulk.(queue := bulk.queue + [frame], accepted := bulk.accepted + [frame]);
      }
      calls := calls[call := Call(env, Some(Sent))];
    }

    /** Offer an envelope. Bulk is answered at once, and never waits; the other tiers start to wait. */
    method SendEnvelope(call: nat, env: Envelope) returns (answer: Option<Verdict>)
      requires Valid() && Enabled(Abstract(), Send(call, env))
      modifies this
      ensures Did(Send(call, env))
      ensures call in calls && calls[call] == Call(env, answer)
      ensures answer == if !BestEffort(env.body) then None
                        else if old(pump).Stopped? then Some(ChannelClosed)
                        else if |old(bulk).queue| >= 32 then Some(Shed)
                        else Some(Sent)
      ensures bulk == if answer == Some(Sent) then Longer(old(bulk), Frame(call, env)) else old(bulk)
      ensures ctl == old(ctl) && alert == old(alert)
    {
      RunStep(clock, INITIAL, run, Send(call, env));
      run := run + [Send(call, env)];
      if !TierOf(env.body).Bulk? {
        answer := None;
        calls := calls[call := Call(env, answer)];
      } else if pump.Stopped? {
        answer := Some(ChannelClosed);
        calls := calls[call := Call(env, answer)];
      } else if |bulk.queue| >= Capacity(Bulk) {
        answer := Some(Shed);
        calls := calls[call := Call(env, answer)];
      } else {
        answer := Some(Sent);
        Append(call, env);
      }
    }

    method AdmitWaiting(call: nat)
      requires Valid() && Enabled(Abstract(), Admit(call))
      modifies this
      ensures Did(Admit(call)) && call in calls && calls[call] == Call(old(calls[call].env), Some(Sent))
    {
      RunStep(clock, INITIAL, run, Admit(call));
      run := run + [Admit(call)];
      Append(call, calls[call].env);
    }

    method RefuseWaiting(call: nat)
      requires Valid() && Enabled(Abstract(), Refuse(call))
      modifies this
      ensures Did(Refuse(call)) && call in calls && calls[call] == Call(old(calls[call].env), Some(ChannelClosed))
    {
      RunStep(clock, INITIAL, run, Refuse(call));
      run := run + [Refuse(call)];
      calls := calls[call := Call(calls[call].env, Some(ChannelClosed))];
    }

    method TimeOutWaiting(call: nat)
      requires Valid() && Enabled(Abstract(), TimeOut(call))
      modifies this
      ensures Did(TimeOut(call)) && call in calls && calls[call] == Call(old(calls[call].env), Some(TimedOut))
    {
      RunStep(clock, INITIAL, run, TimeOut(call));
      run := run + [TimeOut(call)];
      calls := calls[call := Call(calls[call].env, Some(TimedOut))];
    }

    /** A waiting call resolves: closed once the pump has stopped, sent when there is room, else timed out. */
    method Resolve(call: nat) returns (verdict: Verdict)
      requires Valid() && Waiting(Abstract(), call)
      modifies this
      ensures call in calls && calls[call] == Call(old(calls[call].env), Some(verdict)) && !verdict.Shed?
      ensures verdict.ChannelClosed? <==> old(pump).Stopped?
      ensures verdict.Sent? <==>
              && !old(pump).Stopped?
              && |(if Security(old(calls[call].env.body)) then old(alert) else old(ctl)).queue| < 64
      ensures Did(if verdict.ChannelClosed? then Refuse(call) else if verdict.Sent? then Admit(call) else TimeOut(call))
    {
      Invariant(clock, run);
      assert CallOk(Abstract(), call);
      var t := TierOf(calls[call].env.body);
      var length := match t
        case Control => |ctl.queue|
        case Alert => |alert.queue|
        case Bulk => |bulk.queue|;
      if pump.Stopped? {
        RefuseWaiting(call);
        verdict := ChannelClosed;
      } else if length < Capacity(t) {
        AdmitWaiting(call);
        verdict := Sent;
      } else {
        TimeOutWaiting(call);
        verdict := TimedOut;
      }
    }

    // ----- the pump -----

    /** What goes on the wire at `now`: a heartbeat of the control tier carries that instant in both its stamps. */
    function Stamped(env: Envelope, t: Tier, now: nat): Envelope {
      if t.Control? && env.body.Heartbeat?
      then Envelope(clock.rfc3339(now), Heartbeat(Some(now), env.body.text))
      else env
    }

    /** Take the oldest frame of a tier: serialise it and begin to write, or drop it. */
    method TakeOldest(t: Tier, now: nat, serialises: bool)
      requires Abstract().Lane(t).queue != []
      modifies this`ctl, this`alert, this`bulk, this`pump
      ensures Abstract() == TakeFrame(clock, old(Abstract()), t, now, serialises)
      ensures var was, lane := old(Abstract().Lane(t)), Abstract().Lane(t);
              && was.queue == [was.queue[0]] + lane.queue && lane.accepted == was.accepted
              && if serialises
                 then lane.done == was.done && pump == Flushing(t, was.queue[0], Stamped(was.queue[0].env, t, now), now)
                 else lane.done == was.done + [Unserialisable(was.queue[0])] && pump == old(pump)
    {
      var lane := match t
        case Control => ctl
        case Alert => alert
        case Bulk => bulk;
      var frame := lane.queue[0];
      var rest := lane.(queue := lane.queue[1..]);
      if serialises {
        var wire := if t.Control? then StampAtFlush(clock, frame.env, now) else frame.env;
        pump := Flushing(t, frame, wire, now);
      } else {
        rest := rest.(done := lane.done + [Unserialisable(frame)]);
      }
      match t {
        case Control => ctl := rest;
        case Alert => alert := rest;
        case Bulk => bulk := rest;
      }
    }

    /** Handle the oldest message of the peer. */
    method TakeMessage()
      requires incoming != []
      modifies this`incoming, this`inbox, this`pump
      ensures Abstract() == TakeIncoming(old(Abstract()))
      ensures old(incoming) == [old(incoming[0])] + incoming
      ensures inbox == match old(incoming[0])
                       case Text(Some(env)) =>
                         if old(inboxOpen) && |old(inbox)| < 32 then old(inbox) + [env] else old(inbox)
                       case _ => old(inbox)
      ensures pump == match old(incoming[0])
                      case Ping => Answering
                      case RemoteClose => Stopped
                      case ReadError => Stopped
                      case StreamEnd => Stopped
                      case _ => old(pump)
    {
      var msg := incoming[0];
      incoming := incoming[1..];
      match msg {
        case Text(Some(env)) =>
          if inboxOpen && |inbox| < INBOUND_CAPACITY {
            inbox := inbox + [env];
          }
        case Text(None) =>
        case OtherMessage =>
        case Ping => pump := Answering;
        case RemoteClose => pump := Stopped;
        case ReadError => pump := Stopped;
        case StreamEnd => pump := Stopped;
      }
    }

    /** One turn of the pump's select: the first ready branch, in the written order. */
    method SelectOnce(now: nat, serialises: bool)
      requires Valid() && Enabled(Abstract(), Select(now, serialises))
      modifies this
      ensures Did(Select(now, serialises))
      ensures |choices| == |old(choices)| + 1 && FirstReady(old(Abstract()), choices[|choices| - 1])
      ensures choices[|choices| - 1].CloseSignal? ==> pump == Closing
      ensures choices[|choices| - 1].SendersGone? ==> pump == Stopped
    {
      hide Exec, TakeFrame, TakeIncoming, FirstReady;
      ChooseIsFirstReady(Abstract());
      RunStep(clock, INITIAL, run, Select(now, serialises));
      ghost var choice := Choose(Abstract());
      if gone >= 5 {
        pump := Closing;
      } else if ctl.queue != [] {
        TakeOldest(Control, now, serialises);
      } else if gone >= 1 {
        pump := Stopped;
      } else if alert.queue != [] {
        TakeOldest(Alert, now, serialises);
      } else if incoming != [] {
        TakeMessage();
      } else {
        TakeOldest(Bulk, now, serialises);
      }
      choices, run := choices + [choice], run + [Select(now, serialises)];
    }

    /** The write in progress ends; a failed one stops the pump. */
    method FinishWrite(ok: bool)
      requires Valid() && pump.Flushing?
      modifies this
      ensures Did(Flushed(ok))
      ensures pump == if ok then Choosing else Stopped
      ensures var p := old(pump);
              Abstract().Lane(p.tier).done == old(Abstract().Lane(pump.tier)).done
                + [if ok then Written(p.frame, p.wire, p.at) else WriteFailed(p.frame)]
    {
      hide Exec;
      RunStep(clock, INITIAL, run, Flushed(ok));
      run := run + [Flushed(ok)];
      var p := pump;
      var outcome := if ok then Written(p.frame, p.wire, p.at) else WriteFailed(p.frame);
      match p.tier {
        case Control => ctl := ctl.(done := ctl.done + [outcome]);
        case Alert => alert := alert.(done := alert.done + [outcome]);
        case Bulk => bulk := bulk.(done := bulk.done + [outcome]);
      }
      pump := if ok then Choosing else Stopped;
    }

    /** A pong or the close frame has been written. */
    method FinishAnswer()
      requires Valid() && (pump.Answering? || pump.Closing?)
      modifies this
      ensures Did(Answered) && pump == if old(pump).Closing? then Stopped else Choosing
    {
      RunStep(clock, INITIAL, run, Answered);
      run := run + [Answered];
      pump := if pump.Closing? then Stopped else Choosing;
    }

    // ----- peer, consumer and owner -----

    method PeerSends(msg: Incoming)
      requires Valid()
      modifies this
      ensures Did(Arrive(msg))
    {
      RunStep(clock, INITIAL, run, Arrive(msg));
      run := run + [Arrive(msg)];
      incoming := incoming + [msg];
    }

    method TakeInbound() returns (env: Envelope)
      requires Valid() && inbox != []
      modifies this
      ensures Did(Receive) && old(inbox) == [env] + inbox
    {
      RunStep(clock, INITIAL, run, Receive);
      run := run + [Receive];
      env := inbox[0];
      inbox := inbox[1..];
    }

    method DropInbound()
      requires Valid()
      modifies this
      ensures Did(DropInbox)
    {
      RunStep(clock, INITIAL, run, DropInbox);
      run := run + [DropInbox];
      inboxOpen := false;
    }

    /** The owner lets go of the next field of the connection. */
    method DropField()
      requires Valid() && Enabled(Abstract(), DropNext)
      modifies this
      ensures Did(DropNext)
    {
      RunStep(clock, INITIAL, run, DropNext);
      run := run + [DropNext];
      gone := gone + 1;
    }

    // ----- the pump under a schedule -----

    method Step(e: Event)
      requires Valid() && Enabled(Abstract(), e)
      modifies this
      ensures Did(e)
    {
      match e {
        case Send(call, env) =>
          var answer := SendEnvelope(call, env);
        case Admit(call) => AdmitWaiting(call);
        case Refuse(call) => RefuseWaiting(call);
        case TimeOut(call) => TimeOutWaiting(call);
        case Arrive(msg) => PeerSends(msg);
        case Select(now, serialises) => SelectOnce(now, serialises);
        case Flushed(ok) => FinishWrite(ok);
        case Answered => FinishAnswer();
        case Receive =>
          var taken := TakeInbound();
        case DropInbox => DropInbound();
        case DropNext => DropField();
      }
    }

    /** What `run` owes to a caller: every tier conserved, and what was accepted disposed of or still in its place. */
    ghost predicate KeepsFrames()
      reads this
    {
      forall t ::
        && Conserved(Abstract(), t)
        && |Abstract().Lane(t).queue| <= Capacity(t)
        && DistinctCalls(Abstract().Lane(t).accepted)
        && (Abstract().Alive() ==>
              forall n: nat :: n < |Abstract().Lane(t).accepted| ==>
                Disposed(clock, Abstract(), t, n) || Pending(Abstract(), t, n))
    }

    lemma ValidKeepsFrames()
      requires Valid()
      ensures KeepsFrames()
    {
      forall t ensures Conserved(Abstract(), t) && |Abstract().Lane(t).queue| <= Capacity(t)
        && DistinctCalls(Abstract().Lane(t).accepted)
      {
        TiersConserve(clock, run, t);
      }
      forall t, n: nat | Abstract().Alive() && n < |Abstract().Lane(t).accepted|
        ensures Disposed(clock, Abstract(), t, n) || Pending(Abstract(), t, n)
      {
        NothingIsLostWhileAlive(clock, run, t, n);
      }
    }

    /**
     The connection under a schedule of what its callers, peer and owner do. Whatever
     the schedule, no tier loses or reorders a frame, and a control frame that waited
     at the start with `k` ahead of it is disposed of once the pump, back at its
     select, has made more than `k` choices.
     */
    method Pump(schedule: seq<Event>)
      requires Valid() && Exec(clock, Abstract(), schedule).Some?
      modifies this
      ensures Valid() && KeepsFrames()
      ensures run == old(run) + schedule && Exec(clock, old(Abstract()), schedule) == Some(Abstract())
      ensures forall n: nat :: ServedWhenDue(old(Abstract()), n)
    {
      ghost var start, before := Abstract(), run;
      var k := 0;
      assert schedule[..0] == [] && run + [] == run;
      assert Exec(clock, start, []) == Some(start);
      hide Exec, Apply, Enabled, KeepsFrames, ServedWhenDue;
      while k < |schedule|
        invariant 0 <= k <= |schedule|
        invariant Valid() && run == before + schedule[..k]
        invariant Exec(clock, start, schedule[..k]) == Some(Abstract())
      {
        PrefixRuns(clock, start, schedule, k);
        Step(schedule[k]);
        assert schedule[..k + 1] == schedule[..k] + [schedule[k]];
        k := k + 1;
      }
      assert schedule[..k] == schedule;
      ValidKeepsFrames();
      Prompt(start, before, schedule);
    }

    /** If the control frame `n` was due by now, it has been disposed of. */
    ghost predicate ServedWhenDue(start: State, n: nat)
      reads this
    {
      && Progress(start, Control) <= n < |start.ctl.accepted|
      && pump.Choosing? && |choices| - |start.choices| > n - Progress(start, Control)
      ==>
      n < |ctl.accepted| && ctl.accepted[n] == start.ctl.accepted[n] && Disposed(clock, Abstract(), Control, n)
    }

    lemma Prompt(start: State, before: seq<Event>, schedule: seq<Event>)
      requires Exec(clock, INITIAL, before) == Some(start) && Exec(clock, start, schedule) == Some(Abstract())
      ensures forall n: nat :: ServedWhenDue(start, n)
    {
      ChoicesGrow(clock, start, schedule);
      forall n: nat ensures ServedWhenDue(start, n) {
        if && Progress(start, Control) <= n < |start.ctl.accepted|
           && pump.Choosing? && |choices| - |start.choices| > n - Progress(start, Control)
        {
          ControlIsPrompt(clock, before, schedule, n);
        }
      }
    }
  }
}
