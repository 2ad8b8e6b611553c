/** The dispatcher object, proved to be a one-call-at-a-time run of the step system. */
module RpcDispatcher {
  import opened Common
  import opened ActorToken
  import opened ReplayCache
  import opened ResponseCache
  import opened RpcProtocol
  import opened RpcLockstep
  import opened RpcSafety

  type Handler = (string, Envelope, Actor, Option<bytes>) -> Option<bytes>

  /** What a step that touches no cache and no log changes. */
  ghost predicate OnlyPhase(s: State, t: State, id: nat, phase: Phase) {
    && t.clock == s.clock && t.replay == s.replay && t.responses == s.responses
    && t.audits == s.audits && t.starts == s.starts
    && id in t.calls && t.calls[id].phase == phase
  }

  lemma VerifyEffect(cfg: Config, s: State, id: nat)
    requires id in s.calls && s.calls[id].phase == Arrived && !AnonymousRead(s.calls[id].call)
    ensures Enabled(cfg, s, Verify(id))
    ensures OnlyPhase(s, Apply(cfg, s, Verify(id)), id, VerifyPhase(cfg, s.calls[id].call, s.clock))
  {
    hide VerifyPhase;
  }

  lemma LookEffect(cfg: Config, s: State, id: nat, cred: Credential)
    requires id in s.calls && s.calls[id].phase == Verified(cred) && UsesResponseCache(cfg, s.calls[id].call)
    ensures Enabled(cfg, s, Look(id))
    ensures var cached := Lookup(s.responses, ResponseCapacity(cfg), KeyOf(s.calls[id].call, cred));
            OnlyPhase(s, Apply(cfg, s, Look(id)), id,
                      if cached.Some? then Done(CachedResponse(cached.value)) else Missed(cred))
  {
    hide Lookup, KeyOf;
  }

  lemma FinishEffect(cfg: Config, s: State, id: nat, who: Option<Credential>, result: Option<bytes>)
    requires id in s.calls && s.calls[id].phase == Running(who)
    ensures Enabled(cfg, s, Finish(id, result))
    ensures OnlyPhase(s, Apply(cfg, s, Finish(id, result)), id,
                      if result.None? then Done(HandlerFailed)
                      else if UsesResponseCache(cfg, s.calls[id].call) && who.Some?
                      then Returned(who.value, result.value)
                      else Done(Response(result.value)))
  {
  }

  lemma StoreEffect(cfg: Config, s: State, id: nat, cred: Credential, body: bytes)
    requires id in s.calls && s.calls[id].phase == Returned(cred, body)
    ensures Enabled(cfg, s, Store(id))
    ensures var t := Apply(cfg, s, Store(id));
            && t.responses == Put(s.responses, ResponseCapacity(cfg), KeyOf(s.calls[id].call, cred), body)
            && OnlyPhase(s.(responses := t.responses), t, id, Done(Response(body)))
  {
    hide Put, KeyOf;
  }

  /** What the admission step of an RPC call changes. */
  lemma AdmitEffect(cfg: Config, s: State, id: nat, call: Call, cred: Credential)
    requires id in s.calls && call.Rpc? && s.calls[id].call == call
    requires s.calls[id].phase == if UsesResponseCache(cfg, call) then Missed(cred) else Verified(cred)
    ensures Enabled(cfg, s, Admit(id))
    ensures var key, t := ComposeKey(cred.Jti(), call.requestId), Apply(cfg, s, Admit(id));
            && t.replay == Insert(s.replay, cfg.capacity, key)
            && t.responses == s.responses && t.audits == s.audits && t.starts == s.starts
            && id in t.calls
            && t.calls[id].phase ==
               if Admissible(s.replay, cfg.capacity, key) then Admitted(cred) else Done(Rejected(Replayed))
  {
    hide ComposeKey;
  }

  /** What the gate and the audit change. */
  lemma ClearEffect(cfg: Config, s: State, id: nat, call: Call, cred: Credential)
    requires id in s.calls && call.Rpc? && s.calls[id].call == call && s.calls[id].phase == Admitted(cred)
    ensures Enabled(cfg, s, Clear(id))
    ensures var t := Apply(cfg, s, Clear(id));
            && t.replay == s.replay && t.responses == s.responses && t.starts == s.starts
            && id in t.calls
            && if !AllowsRpc(cfg.verifier, cred.Who(), call.env, call.body, true) then
                 t.audits == s.audits && t.calls[id].phase == Done(Rejected(PermissionMismatch))
               else if IsSystemSubject(cred.Who().sub) && call.name !in cfg.policy then
                 t.audits == s.audits && t.calls[id].phase == Done(Rejected(SystemSubNotPermittedForMethod))
               else
                 && t.audits == s.audits + [AuditRecord(id, call.name, call.env, cred.Who())]
                 && t.calls[id].phase == Cleared(cred)
  {
    hide AllowsRpc;
  }

  /** What starting the handler changes. */
  lemma StartEffect(cfg: Config, s: State, id: nat, call: Call, cred: Option<Credential>)
    requires id in s.calls && call.Rpc? && s.calls[id].call == call
    requires cred.Some? ==> s.calls[id].phase == Cleared(cred.value)
    requires cred.None? ==> s.calls[id].phase == Arrived && AnonymousRead(call)
    ensures Enabled(cfg, s, Start(id))
    ensures var t := Apply(cfg, s, Start(id));
            var actor := if cred.Some? then cred.value.Who() else ANONYMOUS;
            && t.replay == s.replay && t.responses == s.responses && t.audits == s.audits && t.clock == s.clock
            && t.starts == s.starts + [HandlerStart(id, call, cred, actor, s.clock, |s.audits|)]
            && id in t.calls && t.calls[id].phase == Running(cred)
  {
  }

  /** How a call must end, given the state it finds: answered at once, or by the handler run for `who`. */
  datatype Ending = Ends(outcome: Outcome) | Runs(who: Option<Credential>)

  ghost function Expected(cfg: Config, s: State, call: Call, now: int): Ending
    requires call.Rpc?
  {
    if call.token.None? then (if IsSafeVerb(call.env.verb) then Runs(None) else Ends(TokenMissing))
    else match VerifyNoReplay(cfg.verifier, call.token.value, call.env, now)
      case Err(reason) => Ends(Rejected(reason))
      case Ok(c) => ExpectedVerified(cfg, s, call, RpcCredential(c, now))
  }

  ghost function ExpectedVerified(cfg: Config, s: State, call: Call, cred: Credential): Ending
    requires call.Rpc?
  {
    var key := KeyOf(call, cred);
    var allowed := AllowsRpc(cfg.verifier, cred.Who(), call.env, call.body, true);
    var cached := Lookup(s.responses, ResponseCapacity(cfg), key);
    if UsesResponseCache(cfg, call) && !allowed then Ends(Rejected(PermissionMismatch))
    else if UsesResponseCache(cfg, call) && cached.Some? then Ends(CachedResponse(cached.value))
    else ExpectedScreened(cfg, s, call, cred)
  }

  /** What is left to decide of a call that neither its checks nor the response cache has answered. */
  ghost function ExpectedScreened(cfg: Config, s: State, call: Call, cred: Credential): Ending
    requires call.Rpc?
  {
    if !Admissible(s.replay, cfg.capacity, KeyOf(call, cred)) then Ends(Rejected(Replayed))
    else ExpectedAdmitted(cfg, call, cred)
  }

  ghost function ExpectedAdmitted(cfg: Config, call: Call, cred: Credential): Ending
    requires call.Rpc?
  {
    if !AllowsRpc(cfg.verifier, cred.Who(), call.env, call.body, true) then Ends(Rejected(PermissionMismatch))
    else if IsSystemSubject(cred.Who().sub) && call.name !in cfg.policy
    then Ends(Rejected(SystemSubNotPermittedForMethod))
    else Runs(Some(cred))
  }

  /** Only the two caches are looked at. */
  lemma ExpectedSame(cfg: Config, s: State, t: State, call: Call, now: int)
    requires call.Rpc? && t.responses == s.responses && t.replay == s.replay
    ensures Expected(cfg, s, call, now) == Expected(cfg, t, call, now)
  {
    hide VerifyNoReplay, AllowsRpc, Admissible, KeyOf;
  }

  class Dispatcher {
    const cfg: Config
    const replay: JtiReplayCache
    const responses: RpcResponseCache
    var audits: seq<AuditRecord>
    ghost var starts: seq<HandlerStart>

    /** The protocol run this object has performed so far, and the state it reached. */
    ghost var t0: int
    ghost var run: seq<Event>
    ghost var model: State

    ghost predicate Linked()
      reads this
    {
      Exec(cfg, t0, run) == Some(model) && Sequential(cfg, t0, run)
    }

    /** The live fields are the model state's. */
    ghost predicate Mirrors()
      reads this, replay, responses
    {
      && replay.Valid() && responses.Valid()
      && replay.capacity == cfg.capacity
      && responses.capacity == ResponseCapacity(cfg)
      && Replay(replay.seen, replay.order) == model.replay
      && Responses(responses.bodies, responses.order) == model.responses
      && audits == model.audits
      && starts == model.starts
    }

    ghost predicate Valid()
      reads this, replay, responses
    {
      Linked() && Mirrors() && AllDone(model)
    }

    constructor (cfg: Config, now: int)
      ensures Valid() && fresh(replay) && fresh(responses)
      ensures this.cfg == cfg && model == Initial(now) && run == []
    {
      this.cfg := cfg;
      var r := new JtiReplayCache(cfg.capacity);
      var p := new RpcResponseCache(ResponseCapacity(cfg));
      replay, responses := r, p;
      audits, starts := [], [];
      t0, run, model := now, [], Initial(now);
    }

    /** Only call `id` may be unfinished. */
    ghost predicate Serving(id: nat)
      reads this, replay, responses
    {
      && Linked() && Mirrors()
      && id in model.calls
      && forall j :: j in model.calls && j != id ==> model.calls[j].phase.Done?
    }

    /** Record one protocol step of the call being served. */
    ghost method Record(id: nat, e: Event)
      requires Linked() && id in model.calls && Enabled(cfg, model, e)
      requires !e.Tick? && !e.Arrive? && e.id == id
      requires forall j :: j in model.calls && j != id ==> model.calls[j].phase.Done?
      modifies this`run, this`model
      ensures Linked() && model == Apply(cfg, old(model), e) && run == old(run) + [e]
      ensures id in model.calls && model.calls[id].call == old(model.calls[id].call)
      ensures forall j :: j in model.calls && j != id ==> model.calls[j].phase.Done?
    {
      hide Exec, Sequential, Apply, Enabled;
      RunStep(cfg, t0, run, model, e);
      StepKeepsCall(cfg, model, e);
      OthersKept(cfg, model, e);
      run := run + [e];
      model := Apply(cfg, model, e);
    }

    /** A new call arrives at time `now`. */
    ghost method Accept(id: nat, call: Call, now: int)
      requires Valid() && id !in model.calls && now >= model.clock
      modifies this`run, this`model
      ensures Serving(id) && old(run) <= run
      ensures model == old(model).(clock := now,
                                   calls := old(model).calls[id := Flight(call, Arrived, None, None, None)])
    {
      hide Exec, Sequential, Remembers, WellFormed, Faithful;
      RunStep(cfg, t0, run, model, Tick(now));
      run, model := run + [Tick(now)], Apply(cfg, model, Tick(now));
      RunStep(cfg, t0, run, model, Arrive(id, call));
      run, model := run + [Arrive(id, call)], Apply(cfg, model, Arrive(id, call));
    }

    /** One more handler start, for `id`, and `outcome` is what the handler answered. */
    static ghost predicate RanOnce(before: seq<HandlerStart>, after: seq<HandlerStart>, id: nat, call: Call,
                                   who: Option<Credential>, handler: Handler, outcome: Outcome)
      requires call.Rpc?
    {
      && |after| == |before| + 1 && before == after[..|before|]
      && var start := after[|before|];
         && start.id == id && start.call == call && start.who == who
         && start.actor == (if who.Some? then who.value.Who() else ANONYMOUS)
         && outcome == Answer(handler(call.name, call.env, start.actor, call.body))
    }

    static function Answer(result: Option<bytes>): Outcome {
      match result
      case Some(body) => Response(body)
      case None => HandlerFailed
    }

    /**
     Handle one inbound call to completion. Whatever the outcome, what the object
     did is a sequential run of the protocol in which `id` ended with that outcome.
     The handler ran exactly once for a response or a handler failure, with this
     call and the recorded actor, and not at all for any other outcome.
     */
    method Dispatch(id: nat, call: Call, now: int, handler: Handler) returns (outcome: Outcome)
      requires Valid() && call.Rpc? && id !in model.calls && now >= model.clock
      modifies this, replay, responses
      ensures Valid() && old(run) <= run && t0 == old(t0)
      ensures id in model.calls && model.calls[id].call == call && model.calls[id].phase == Done(outcome)
      ensures match old(Expected(cfg, model, call, now))
              case Ends(answer) => outcome == answer && starts == old(starts)
              case Runs(who) => RanOnce(old(starts), starts, id, call, who, handler, outcome)
      ensures audits == old(audits) + match old(Expected(cfg, model, call, now))
                                      case Runs(Some(cred)) => [AuditRecord(id, call.name, call.env, cred.Who())]
                                      case _ => []
    {
      hide Exec, Sequential, Remembers, WellFormed, Faithful, Apply, Enabled;
      hide VerifyNoReplay, ExpectedVerified, ExpectedAdmitted, RanOnce, Admissible;
      ghost var found := model;
      Accept(id, call, now);
      ExpectedSame(cfg, found, model, call, now);
      if call.token.None? && IsSafeVerb(call.env.verb) {
        outcome := RunHandler(id, call, None, handler);
        return;
      }
      var screened := Screen(id, call, now);
      if screened.Err? {
        return screened.error;
      }
      var cred := screened.value;
      var accepted := AdmitOnce(id, call, cred);
      if !accepted {
        return Rejected(Replayed);
      }
      var refused := CheckSystemSubAndAudit(id, call, cred);
      if refused.Some? {
        return refused.value;
      }
      outcome := RunHandler(id, call, Some(cred), handler);
    }

    /** Token checks, and for the response-cache path the body check and the cache lookup. */
    method Screen(id: nat, call: Call, now: int) returns (r: Result<Credential, Outcome>)
      requires Serving(id) && model.calls[id] == Flight(call, Arrived, None, None, None) && model.clock == now
      requires call.Rpc? && !AnonymousRead(call)
      modifies this`run, this`model
      ensures Serving(id) && old(run) <= run && model.calls[id].call == call
      ensures r.Err? ==> model.calls[id].phase == Done(r.error)
      ensures r.Err? ==> old(Expected(cfg, model, call, now)) == Ends(r.error)
      ensures r.Ok? ==> old(Expected(cfg, model, call, now)) == ExpectedScreened(cfg, model, call, r.value)
      ensures r.Ok? ==> r.value.RpcCredential? && call.token.Some?
      ensures r.Ok? ==>
                model.calls[id].phase == if UsesResponseCache(cfg, call) then Missed(r.value) else Verified(r.value)
    {
      hide Exec, Sequential, Remembers, WellFormed, Faithful, Apply, Enabled;
      hide AllowsRpc, VerifyNoReplay, Lookup, Admissible;
      VerifyEffect(cfg, model, id);
      Record(id, Verify(id));
      if call.token.None? {
        return Err(TokenMissing);
      }
      var claims := VerifyNoReplay(cfg.verifier, call.token.value, call.env, now);
      if claims.Err? {
        return Err(Rejected(claims.error));
      }
      var cred := RpcCredential(claims.value, now);
      if cfg.responseCapacity.None? || call.requestId.None? {
        return Ok(cred);
      }
      if !AllowsRpc(cfg.verifier, cred.Who(), call.env, call.body, true) {
        return Err(Rejected(PermissionMismatch));
      }
      var cached := responses.Get(cred.Jti(), call.requestId.value);
      assert KeyOf(call, cred) == Key(cred.Jti(), call.requestId.value);
      LookEffect(cfg, model, id, cred);
      Record(id, Look(id));
      if cached.Some? {
        return Err(CachedResponse(cached.value));
      }
      r := Ok(cred);
    }

    /** Admission to the replay cache: a key it still remembers is refused. */
    method AdmitOnce(id: nat, call: Call, cred: Credential) returns (accepted: bool)
      requires Serving(id) && call.Rpc? && model.calls[id].call == call
      requires model.calls[id].phase == if UsesResponseCache(cfg, call) then Missed(cred) else Verified(cred)
      modifies this`run, this`model, replay
      ensures Serving(id) && old(run) <= run && model.calls[id].call == call
      ensures accepted <==> old(Admissible(model.replay, cfg.capacity, KeyOf(call, cred)))
      ensures accepted ==> model.calls[id].phase == Admitted(cred)
      ensures !accepted ==> model.calls[id].phase == Done(Rejected(Replayed))
    {
      hide Exec, Sequential, Remembers, WellFormed, Faithful, Apply, Enabled, Insert, Admissible;
      AdmitEffect(cfg, model, id, call, cred);
      assert KeyOf(call, cred) == ComposeKey(cred.Jti(), call.requestId);
      accepted := replay.InsertKeyed(cred.Jti(), call.requestId);
      Record(id, Admit(id));
    }

    /** The body check, the system-subject gate and the audit record. */
    method CheckSystemSubAndAudit(id: nat, call: Call, cred: Credential) returns (refused: Option<Outcome>)
      requires Serving(id) && call.Rpc? && model.calls[id].call == call && model.calls[id].phase == Admitted(cred)
      modifies this
      ensures Serving(id) && old(run) <= run && t0 == old(t0) && model.calls[id].call == call
      ensures refused.Some? ==> model.calls[id].phase == Done(refused.value)
      ensures ExpectedAdmitted(cfg, call, cred) == if refused.Some? then Ends(refused.value) else Runs(Some(cred))
      ensures starts == old(starts)
      ensures audits == old(audits) +
                if refused.Some? then [] else [AuditRecord(id, call.name, call.env, cred.Who())]
      ensures refused.None? ==> model.calls[id].phase == Cleared(cred)
    {
      hide Exec, Sequential, Remembers, WellFormed, Faithful, Apply, Enabled, AllowsRpc;
      ClearEffect(cfg, model, id, call, cred);
      Record(id, Clear(id));
      if !AllowsRpc(cfg.verifier, cred.Who(), call.env, call.body, true) {
        return Some(Rejected(PermissionMismatch));
      }
      if IsSystemSubject(cred.Who().sub) && call.name !in cfg.policy {
        return Some(Rejected(SystemSubNotPermittedForMethod));
      }
      audits := audits + [AuditRecord(id, call.name, call.env, cred.Who())];
      refused := None;
    }

    /** Run the handler and, on the response-cache path, store what it returned. */
    method RunHandler(id: nat, call: Call, cred: Option<Credential>, handler: Handler) returns (outcome: Outcome)
      requires Serving(id) && call.Rpc? && model.calls[id].call == call
      requires cred.Some? ==> model.calls[id].phase == Cleared(cred.value) && call.token.Some?
      requires cred.None? ==> model.calls[id].phase == Arrived && AnonymousRead(call)
      modifies this, responses
      ensures Valid() && old(run) <= run && t0 == old(t0)
      ensures id in model.calls && model.calls[id].call == call && model.calls[id].phase == Done(outcome)
      ensures RanOnce(old(starts), starts, id, call, cred, handler, outcome) && audits == old(audits)
    {
      hide Exec, Sequential, Remembers, WellFormed, Faithful, Apply, Enabled;
      StartEffect(cfg, model, id, call, cred);
      var actor := if cred.Some? then cred.value.Who() else ANONYMOUS;
      starts := starts + [HandlerStart(id, call, cred, actor, model.clock, |audits|)];
      Record(id, Start(id));
      var result := handler(call.name, call.env, actor, call.body);
      outcome := Conclude(id, call, cred, result);
    }

    /** Turn the handler's result into the call's outcome. */
    method Conclude(id: nat, call: Call, cred: Option<Credential>, result: Option<bytes>) returns (outcome: Outcome)
      requires Serving(id) && call.Rpc? && model.calls[id].call == call && model.calls[id].phase == Running(cred)
      requires cred.Some? ==> call.token.Some?
      modifies this`run, this`model, responses
      ensures Serving(id) && old(run) <= run
      ensures model.calls[id].call == call && model.calls[id].phase == Done(outcome)
      ensures outcome == Answer(result)
    {
      hide Exec, Sequential, Remembers, WellFormed, Faithful, Apply, Enabled;
      FinishEffect(cfg, model, id, cred, result);
      Record(id, Finish(id, result));
      if result.None? {
        return HandlerFailed;
      }
      if cred.Some? && cfg.responseCapacity.Some? && call.requestId.Some? {
        StoreResponse(id, call, cred.value, result.value);
      }
      outcome := Response(result.value);
    }

    method StoreResponse(id: nat, call: Call, cred: Credential, body: bytes)
      requires Serving(id) && UsesResponseCache(cfg, call)
      requires model.calls[id].call == call && model.calls[id].phase == Returned(cred, body)
      modifies this`run, this`model, responses
      ensures Serving(id) && old(run) <= run && model.calls[id].call == call
      ensures model.calls[id].phase == Done(Response(body))
      ensures responses.history == old(responses.history) + [Stored(cred.Jti() + "|" + call.requestId.value, body)]
    {
      hide Exec, Sequential, Remembers, WellFormed, Faithful, Apply, Enabled, Put;
      StoreEffect(cfg, model, id, cred, body);
      responses.Insert(cred.Jti(), call.requestId.value, body);
      assert KeyOf(call, cred) == Key(cred.Jti(), call.requestId.value);
      Record(id, Store(id));
    }
  }
}
