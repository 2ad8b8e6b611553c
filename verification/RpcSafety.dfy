/** Invariants of the admission protocol and its run-level safety theorems. */
module RpcSafety {
  import opened Common
  import opened ActorToken
  import opened ReplayCache
  import opened ResponseCache
  import opened RpcProtocol

  // ----- every step only extends what is already recorded -----

  ghost predicate FlightExtends(f: Flight, g: Flight) {
    && g.call == f.call
    && (f.pos.Some? ==> g.pos == f.pos)
    && (f.auditAt.Some? ==> g.auditAt == f.auditAt)
    && (f.startAt.Some? ==> g.startAt == f.startAt)
    && (f.phase.Done? ==> g == f)
  }

  ghost predicate Extends(s: State, t: State) {
    && s.clock <= t.clock
    && s.admitted <= t.admitted && s.admissions <= t.admissions
    && s.audits <= t.audits && s.starts <= t.starts
    && s.history <= t.history && s.storedBy <= t.storedBy && s.hits <= t.hits
    && (forall id :: id in s.calls ==> id in t.calls && FlightExtends(s.calls[id], t.calls[id]))
    && (forall id :: id in s.results ==> id in t.results && t.results[id] == s.results[id])
  }

  lemma StepExtends(cfg: Config, s: State, e: Event)
    requires Enabled(cfg, s, e)
    requires e.Tick? || e.Arrive? || FlightOk(cfg, s, e.id)
    ensures Extends(s, Apply(cfg, s, e))
  {
    var t := Apply(cfg, s, e);
    if e.Tick? || e.Arrive? {
      assert forall id :: id in s.calls ==> t.calls[id] == s.calls[id];
    } else {
      OnlyMoved(cfg, s, e);
    }
  }

  /** A step of one call leaves every other call alone and appends to logs. */
  lemma OnlyMoved(cfg: Config, s: State, e: Event)
    requires Enabled(cfg, s, e) && !e.Tick? && !e.Arrive? && FlightOk(cfg, s, e.id)
    ensures Extends(s, Apply(cfg, s, e))
  {
    OthersKept(cfg, s, e);
    if Early(e) {
      EarlyExtends(cfg, s, e);
      EarlyLogsGrow(cfg, s, e);
    } else {
      LateExtends(cfg, s, e);
      LateLogsGrow(cfg, s, e);
    }
  }

  /** The steps up to and including admission. */
  predicate Early(e: Event) {
    e.Verify? || e.Look? || e.Admit?
  }

  lemma EarlyExtends(cfg: Config, s: State, e: Event)
    requires Enabled(cfg, s, e) && Early(e) && FlightOk(cfg, s, e.id)
    ensures e.id in Apply(cfg, s, e).calls
    ensures FlightExtends(s.calls[e.id], Apply(cfg, s, e).calls[e.id])
  {
    hide CredentialOk, Permitted, KeyOf, VerifyPhase, Insert, Lookup;
    if e.Verify? {
      VerifyYieldsCredential(cfg, s.calls[e.id].call, s.clock);
    }
  }

  lemma LateExtends(cfg: Config, s: State, e: Event)
    requires Enabled(cfg, s, e) && !e.Tick? && !e.Arrive? && !Early(e) && FlightOk(cfg, s, e.id)
    ensures e.id in Apply(cfg, s, e).calls
    ensures FlightExtends(s.calls[e.id], Apply(cfg, s, e).calls[e.id])
  {
    hide CredentialOk, Permitted, AllowsRpc, ComposeKey, Put;
  }

  ghost predicate UnmovedSame(s: State, t: State, moved: nat) {
    forall id :: id in t.calls && id != moved ==>
      id in s.calls && t.calls[id] == s.calls[id] && (id in t.results <==> id in s.results)
  }

  lemma StepKeepsCall(cfg: Config, s: State, e: Event)
    requires Enabled(cfg, s, e) && !e.Tick? && !e.Arrive?
    ensures e.id in s.calls && e.id in Apply(cfg, s, e).calls
    ensures Apply(cfg, s, e).calls[e.id].call == s.calls[e.id].call
  {
  }

  lemma OthersKept(cfg: Config, s: State, e: Event)
    requires Enabled(cfg, s, e) && !e.Tick? && !e.Arrive?
    ensures Apply(cfg, s, e).calls.Keys == s.calls.Keys
    ensures UnmovedSame(s, Apply(cfg, s, e), e.id)
  {
    if Early(e) {
      EarlyOthersKept(cfg, s, e);
    } else {
      LateOthersKept(cfg, s, e);
    }
  }

  lemma EarlyOthersKept(cfg: Config, s: State, e: Event)
    requires Enabled(cfg, s, e) && Early(e)
    ensures Apply(cfg, s, e).calls.Keys == s.calls.Keys
    ensures UnmovedSame(s, Apply(cfg, s, e), e.id)
  {
  }

  lemma LateOthersKept(cfg: Config, s: State, e: Event)
    requires Enabled(cfg, s, e) && !e.Tick? && !e.Arrive? && !Early(e)
    ensures Apply(cfg, s, e).calls.Keys == s.calls.Keys
    ensures UnmovedSame(s, Apply(cfg, s, e), e.id)
  {
  }

  ghost predicate LogsExtend(s: State, t: State) {
    && s.clock == t.clock
    && s.admitted <= t.admitted && s.admissions <= t.admissions
    && s.audits <= t.audits && s.starts <= t.starts
    && s.history <= t.history && s.storedBy <= t.storedBy && s.hits <= t.hits
    && forall id :: id in s.results ==> id in t.results && t.results[id] == s.results[id]
  }

  lemma EarlyLogsGrow(cfg: Config, s: State, e: Event)
    requires Enabled(cfg, s, e) && Early(e)
    ensures LogsExtend(s, Apply(cfg, s, e))
  {
  }

  lemma LateLogsGrow(cfg: Config, s: State, e: Event)
    requires Enabled(cfg, s, e) && !e.Tick? && !e.Arrive? && !Early(e)
    requires e.Finish? ==> e.id !in s.results
    ensures LogsExtend(s, Apply(cfg, s, e))
  {
  }

  lemma AdmissionKept(cfg: Config, s: State, t: State, i: nat)
    requires Extends(s, t) && |t.admissions| == |t.admitted|
    requires i < |s.admissions| == |s.admitted| && AdmissionOk(cfg, s, i)
    ensures AdmissionOk(cfg, t, i)
  {
    assert s.calls[s.admissions[i].id].pos == Some(i);
  }

  lemma StartKept(cfg: Config, s: State, t: State, k: nat)
    requires Extends(s, t) && k < |s.starts| && StartOk(cfg, s, k)
    ensures StartOk(cfg, t, k)
  {
    var h := s.starts[k];
    assert FlightExtends(s.calls[h.id], t.calls[h.id]);
  }

  lemma StoreKept(cfg: Config, s: State, t: State, m: nat)
    requires Extends(s, t) && |t.storedBy| == |t.history|
    requires m < |s.storedBy| == |s.history| && StoreOk(cfg, s, m)
    ensures StoreOk(cfg, t, m)
  {
    var id := s.storedBy[m].id;
    assert FlightExtends(s.calls[id], t.calls[id]);
  }

  lemma HitKept(cfg: Config, s: State, t: State, n: nat)
    requires Extends(s, t) && n < |s.hits| && HitOk(cfg, s, n)
    ensures HitOk(cfg, t, n)
  {
    var h := s.hits[n];
    assert FlightExtends(s.calls[h.id], t.calls[h.id]);
    assert t.history[..h.storesBefore] == s.history[..h.storesBefore];
  }

  lemma FlightKept(cfg: Config, s: State, t: State, id: nat)
    requires Extends(s, t) && id in s.calls && t.calls[id] == s.calls[id] && FlightOk(cfg, s, id)
    requires id in t.results <==> id in s.results
    ensures FlightOk(cfg, t, id)
  {
  }

  // ----- each group of invariants is kept by every step -----

  lemma CachesStep(cfg: Config, s: State, e: Event)
    requires CachesOk(cfg, s) && Enabled(cfg, s, e)
    ensures CachesOk(cfg, Apply(cfg, s, e))
  {
    if e.Admit? {
      AdmitKeepsCaches(cfg, s, e.id);
    } else if e.Store? {
      StoreKeepsCaches(cfg, s, e.id);
    } else {
      hide CachesOk;
      OtherStepsLeaveCaches(cfg, s, e);
      SameCaches(cfg, s, Apply(cfg, s, e));
    }
  }

  lemma OtherStepsLeaveCaches(cfg: Config, s: State, e: Event)
    requires Enabled(cfg, s, e) && !e.Admit? && !e.Store?
    ensures var t := Apply(cfg, s, e);
            t.replay == s.replay && t.admitted == s.admitted && t.responses == s.responses && t.history == s.history
  {
  }

  lemma SameCaches(cfg: Config, s: State, t: State)
    requires CachesOk(cfg, s)
    requires t.replay == s.replay && t.admitted == s.admitted && t.responses == s.responses && t.history == s.history
    ensures CachesOk(cfg, t)
  {
    hide Remembers, PutAll, Faithful, WellFormed;
  }

  lemma AdmitKeepsCaches(cfg: Config, s: State, id: nat)
    requires CachesOk(cfg, s) && Enabled(cfg, s, Admit(id))
    ensures CachesOk(cfg, AdmitStep(cfg, s, id))
  {
    hide Remembers, PutAll, Faithful, WellFormed, Insert;
    InsertKeepsWindow(s.replay, cfg.capacity, s.admitted, KeyOf(s.calls[id].call, s.calls[id].phase.cred));
  }

  lemma StoreKeepsCaches(cfg: Config, s: State, id: nat)
    requires CachesOk(cfg, s) && Enabled(cfg, s, Store(id))
    ensures CachesOk(cfg, StoreStep(cfg, s, id))
  {
    hide Remembers, Faithful, WellFormed, Put;
    var f, capacity := s.calls[id], ResponseCapacity(cfg);
    var key := KeyOf(f.call, f.phase.cred);
    PutKeepsShape(s.responses, capacity, key, f.phase.body);
    PutAllIsSound(capacity, s.history);
    PutKeepsFaithful(s.responses, capacity, s.history, key, f.phase.body);
    var stored := s.history + [Stored(key, f.phase.body)];
    assert stored[..|stored| - 1] == s.history;
  }

  lemma AdmissionsStep(cfg: Config, s: State, e: Event)
    requires AdmissionsOk(cfg, s) && Enabled(cfg, s, e) && Extends(s, Apply(cfg, s, e))
    requires e.Admit? ==> FlightOk(cfg, s, e.id)
    ensures AdmissionsOk(cfg, Apply(cfg, s, e))
  {
    var t := Apply(cfg, s, e);
    forall i | 0 <= i < |s.admissions| ensures AdmissionOk(cfg, t, i) {
      AdmissionKept(cfg, s, t, i);
    }
  }

  lemma VerifyYieldsCredential(cfg: Config, call: Call, now: int)
    ensures VerifyPhase(cfg, call, now).Done? || VerifyPhase(cfg, call, now).Verified?
    ensures var phase := VerifyPhase(cfg, call, now);
            phase.Done? ==> phase.outcome.TokenMissing? || phase.outcome.Rejected?
    ensures VerifyPhase(cfg, call, now).Verified? ==>
              && CredentialOk(cfg, call, VerifyPhase(cfg, call, now).cred, now)
              && MayBeCached(cfg, call, VerifyPhase(cfg, call, now).cred)
  {
    var phase := VerifyPhase(cfg, call, now);
    if phase.Verified? && call.Rpc? {
      VerifyIffGrants(cfg.verifier, call.token.value, call.env, now, phase.cred.claims);
    } else if phase.Verified? {
      VerifyShellIffGrants(cfg.verifier, call.shellToken, call.sessionId, now, phase.cred.shell);
    }
  }

  // The flight a step moves.

  lemma EarlyFlight(cfg: Config, s: State, e: Event)
    requires Enabled(cfg, s, e) && Early(e) && FlightOk(cfg, s, e.id)
    ensures FlightOk(cfg, Apply(cfg, s, e), e.id)
  {
    hide FlightOk, VerifyPhase, LookStep, AdmitStep, WithPhase;
    match e
    case Verify(id) => VerifyFlight(cfg, s, id);
    case Look(id) => LookFlight(cfg, s, id);
    case Admit(id) => AdmitFlight(cfg, s, id);
  }

  lemma VerifyFlight(cfg: Config, s: State, id: nat)
    requires Enabled(cfg, s, Verify(id)) && FlightOk(cfg, s, id)
    ensures FlightOk(cfg, WithPhase(s, id, VerifyPhase(cfg, s.calls[id].call, s.clock)), id)
  {
    hide VerifyPhase, CredentialOk, Permitted;
    VerifyYieldsCredential(cfg, s.calls[id].call, s.clock);
  }

  lemma LookFlight(cfg: Config, s: State, id: nat)
    requires Enabled(cfg, s, Look(id)) && FlightOk(cfg, s, id)
    ensures FlightOk(cfg, LookStep(cfg, s, id), id)
  {
    hide CredentialOk, Permitted, MayBeCached, Lookup, KeyOf;
  }

  lemma AdmitFlight(cfg: Config, s: State, id: nat)
    requires Enabled(cfg, s, Admit(id)) && FlightOk(cfg, s, id)
    ensures FlightOk(cfg, AdmitStep(cfg, s, id), id)
  {
    hide CredentialOk, Permitted, MayBeCached, Insert, Admissible, KeyOf;
    ShellHasShellCredential(cfg, s, id);
  }

  lemma ShellHasShellCredential(cfg: Config, s: State, id: nat)
    requires Enabled(cfg, s, Admit(id)) && FlightOk(cfg, s, id)
    ensures CredentialOk(cfg, s.calls[id].call, s.calls[id].phase.cred, s.clock)
    ensures s.calls[id].call.Shell? <==> s.calls[id].phase.cred.ShellCredential?
  {
    hide Permitted, Grants, ShellGrants, InWindow;
  }

  lemma LateFlight(cfg: Config, s: State, e: Event)
    requires Enabled(cfg, s, e) && !e.Tick? && !e.Arrive? && !Early(e) && FlightOk(cfg, s, e.id)
    ensures FlightOk(cfg, Apply(cfg, s, e), e.id)
  {
    hide FlightOk, ClearStep, StartStep, FinishStep, StoreStep;
    match e
    case Clear(id) => ClearFlight(cfg, s, id);
    case Start(id) => StartFlight(cfg, s, id);
    case Finish(id, result) => FinishFlight(cfg, s, id, result);
    case Store(id) => StoreFlight(cfg, s, id);
  }

  lemma ClearFlight(cfg: Config, s: State, id: nat)
    requires Enabled(cfg, s, Clear(id)) && FlightOk(cfg, s, id)
    ensures FlightOk(cfg, ClearStep(cfg, s, id), id)
  {
    hide CredentialOk, MayBeCached, AllowsRpc, KeyOf;
  }

  lemma StartFlight(cfg: Config, s: State, id: nat)
    requires Enabled(cfg, s, Start(id)) && FlightOk(cfg, s, id)
    ensures FlightOk(cfg, StartStep(s, id), id)
  {
    hide CredentialOk, Permitted, KeyOf;
  }

  lemma FinishFlight(cfg: Config, s: State, id: nat, result: Option<bytes>)
    requires Enabled(cfg, s, Finish(id, result)) && FlightOk(cfg, s, id)
    ensures FlightOk(cfg, FinishStep(cfg, s, id, result), id)
  {
    hide CredentialOk, Permitted, KeyOf;
  }

  lemma StoreFlight(cfg: Config, s: State, id: nat)
    requires Enabled(cfg, s, Store(id)) && FlightOk(cfg, s, id)
    ensures FlightOk(cfg, StoreStep(cfg, s, id), id)
  {
    hide CredentialOk, Permitted, MayBeCached, KeyOf, Put;
  }

  lemma FlightsStep(cfg: Config, s: State, e: Event)
    requires FlightsOk(cfg, s) && Enabled(cfg, s, e) && Extends(s, Apply(cfg, s, e))
    requires ResultsOk(cfg, s)
    ensures FlightsOk(cfg, Apply(cfg, s, e))
  {
    var t := Apply(cfg, s, e);
    if e.Tick? || e.Arrive? {
      forall id | id in s.calls ensures FlightOk(cfg, t, id) {
        FlightKept(cfg, s, t, id);
      }
    } else {
      OthersKept(cfg, s, e);
      assert FlightOk(cfg, s, e.id);
      if Early(e) {
        EarlyFlight(cfg, s, e);
      } else {
        LateFlight(cfg, s, e);
      }
      RestKept(cfg, s, t, e.id);
    }
  }

  /** When only call `moved` changed, the others stay well-formed. */
  lemma RestKept(cfg: Config, s: State, t: State, moved: nat)
    requires FlightsOk(cfg, s) && Extends(s, t) && moved in t.calls && FlightOk(cfg, t, moved)
    requires UnmovedSame(s, t, moved)
    ensures FlightsOk(cfg, t)
  {
    forall id | id in t.calls && id != moved ensures FlightOk(cfg, t, id) {
      FlightKept(cfg, s, t, id);
    }
  }

  lemma StartsStep(cfg: Config, s: State, e: Event)
    requires StartsOk(cfg, s) && Enabled(cfg, s, e) && Extends(s, Apply(cfg, s, e))
    requires e.Start? ==> FlightOk(cfg, s, e.id)
    ensures StartsOk(cfg, Apply(cfg, s, e))
  {
    var t := Apply(cfg, s, e);
    forall k | 0 <= k < |s.starts| ensures StartOk(cfg, t, k) {
      StartKept(cfg, s, t, k);
    }
  }

  lemma StoresStep(cfg: Config, s: State, e: Event)
    requires StoresOk(cfg, s) && Enabled(cfg, s, e) && Extends(s, Apply(cfg, s, e))
    requires e.Store? ==> FlightOk(cfg, s, e.id)
    ensures StoresOk(cfg, Apply(cfg, s, e))
  {
    var t := Apply(cfg, s, e);
    forall m | 0 <= m < |s.storedBy| ensures StoreOk(cfg, t, m) {
      StoreKept(cfg, s, t, m);
    }
  }

  lemma HitsStep(cfg: Config, s: State, e: Event)
    requires HitsOk(cfg, s) && Faithful(s.responses, s.history) && Enabled(cfg, s, e) && Extends(s, Apply(cfg, s, e))
    requires e.Look? ==> FlightOk(cfg, s, e.id)
    ensures HitsOk(cfg, Apply(cfg, s, e))
  {
    var t := Apply(cfg, s, e);
    forall n | 0 <= n < |s.hits| ensures HitOk(cfg, t, n) {
      HitKept(cfg, s, t, n);
    }
    if e.Look? {
      assert t.history[..|s.history|] == s.history;
    }
  }

  lemma AuditsStep(cfg: Config, s: State, e: Event)
    requires AuditsOk(s) && Enabled(cfg, s, e) && Extends(s, Apply(cfg, s, e))
    requires e.Clear? ==> FlightOk(cfg, s, e.id)
    ensures AuditsOk(Apply(cfg, s, e))
  {
    var t := Apply(cfg, s, e);
    forall a | 0 <= a < |s.audits| ensures t.audits[a].id in t.calls && t.calls[t.audits[a].id].auditAt == Some(a) {
      assert FlightExtends(s.calls[s.audits[a].id], t.calls[s.audits[a].id]);
    }
  }

  /** A step of another call leaves a result as it is. */
  lemma ResultKept(cfg: Config, s: State, t: State, id: nat)
    requires Extends(s, t) && |t.storedBy| == |t.history|
    requires id in s.results && id in t.results && ResultOk(cfg, s, id)
    requires t.calls[id] == s.calls[id]
    ensures ResultOk(cfg, t, id)
  {
    if s.calls[id].phase.Done? && UsesResponseCache(cfg, s.calls[id].call) {
      var m :| 0 <= m < |s.storedBy| && s.storedBy[m].id == id && s.history[m].body == s.results[id];
      assert t.storedBy[m] == s.storedBy[m] && t.history[m] == s.history[m];
    }
  }

  lemma ResultsStep(cfg: Config, s: State, e: Event)
    requires ResultsOk(cfg, s) && Enabled(cfg, s, e) && Extends(s, Apply(cfg, s, e))
    requires |Apply(cfg, s, e).storedBy| == |Apply(cfg, s, e).history|
    requires e.Finish? || e.Store? ==> FlightOk(cfg, s, e.id)
    ensures ResultsOk(cfg, Apply(cfg, s, e))
  {
    var t := Apply(cfg, s, e);
    if e.Tick? || e.Arrive? {
      forall id | id in t.results ensures ResultOk(cfg, t, id) {
        ResultKept(cfg, s, t, id);
      }
    } else {
      OthersKept(cfg, s, e);
      forall id | id in t.results ensures ResultOk(cfg, t, id) {
        if id != e.id {
          ResultKept(cfg, s, t, id);
        } else {
          MovedResult(cfg, s, e);
        }
      }
    }
  }

  /** Only the end of the handler and the store touch a call that has a result. */
  lemma MovedResult(cfg: Config, s: State, e: Event)
    requires Enabled(cfg, s, e) && !e.Tick? && !e.Arrive? && ResultsOk(cfg, s)
    requires |Apply(cfg, s, e).storedBy| == |Apply(cfg, s, e).history|
    requires e.Finish? || e.Store? ==> FlightOk(cfg, s, e.id)
    requires e.id in Apply(cfg, s, e).results
    ensures ResultOk(cfg, Apply(cfg, s, e), e.id)
  {
    assert e.id in s.results ==> ResultOk(cfg, s, e.id);
    var t := Apply(cfg, s, e);
    if e.Store? {
      var m := |s.storedBy|;
      assert t.storedBy[m].id == e.id;
    }
  }

  lemma StepKeepsInv(cfg: Config, s: State, e: Event)
    requires Inv(cfg, s) && Enabled(cfg, s, e)
    ensures Inv(cfg, Apply(cfg, s, e))
  {
    hide Apply, Enabled, Extends, CachesOk, AdmissionsOk, StartsOk, HitsOk, AuditsOk;
    FlightOfStep(cfg, s, e);
    StepExtends(cfg, s, e);
    CachesAreFaithful(cfg, s);
    CachesStep(cfg, s, e);
    AdmissionsStep(cfg, s, e);
    FlightsStep(cfg, s, e);
    StartsStep(cfg, s, e);
    StoresStep(cfg, s, e);
    HitsStep(cfg, s, e);
    AuditsStep(cfg, s, e);
    ResultsStep(cfg, s, e);
  }

  lemma FlightOfStep(cfg: Config, s: State, e: Event)
    requires FlightsOk(cfg, s) && Enabled(cfg, s, e)
    ensures e.Tick? || e.Arrive? || FlightOk(cfg, s, e.id)
  {
    hide FlightOk;
  }

  lemma CachesAreFaithful(cfg: Config, s: State)
    requires CachesOk(cfg, s)
    ensures Faithful(s.responses, s.history)
  {
  }

  /** Every state reached by any run, however its calls interleave, satisfies the invariant. */
  lemma {:induction false} Invariant(cfg: Config, t0: int, run: seq<Event>)
    requires Exec(cfg, t0, run).Some?
    ensures Inv(cfg, Exec(cfg, t0, run).value)
  {
    if run != [] {
      var init := run[..|run| - 1];
      Invariant(cfg, t0, init);
      StepKeepsInv(cfg, Exec(cfg, t0, init).value, run[|run| - 1]);
    }
  }

  // ----- at most one execution -----

  /** The exact window: a call is admitted exactly when its key is not one of the last `capacity` admitted. */
  lemma AdmittedIffOutsideWindow(cfg: Config, t0: int, run: seq<Event>, id: nat)
    requires Exec(cfg, t0, run).Some? && cfg.capacity > 0 && Enabled(cfg, Exec(cfg, t0, run).value, Admit(id))
    ensures var s := Exec(cfg, t0, run).value;
            var key := KeyOf(s.calls[id].call, s.calls[id].phase.cred);
            var t := Apply(cfg, s, Admit(id));
            && (t.admitted == s.admitted + [key] <==> key !in Recent(s.admitted, cfg.capacity))
            && (t.calls[id].phase == Done(Rejected(Replayed)) <==> key in Recent(s.admitted, cfg.capacity))
  {
    Invariant(cfg, t0, run);
  }

  /** The call was granted a shell. */
  predicate Granted(s: State, id: nat) {
    id in s.calls && s.calls[id].phase.Done? && s.calls[id].phase.outcome.ShellGranted?
  }

  /** Where a granted shell stands in the admission log, and under which claims. */
  ghost predicate GrantAt(cfg: Config, s: State, id: nat, p: nat) {
    && Granted(s, id) && p < |s.admissions| && s.admissions[p].id == id
    && s.admissions[p].cred.ShellCredential? && s.admissions[p].key == s.admissions[p].cred.Jti()
    && s.calls[id].phase.outcome.actor == s.admissions[p].cred.Who()
    && s.calls[id].call.Shell?
    && ShellGrants(cfg.verifier, s.calls[id].call.shellToken, s.calls[id].call.sessionId,
                   s.admissions[p].cred.at, s.admissions[p].cred.shell)
  }

  /** Every shell grant comes from a token granted for that very session, through an admission of its own. */
  lemma GrantHasAdmission(cfg: Config, t0: int, run: seq<Event>, id: nat) returns (p: nat)
    requires Exec(cfg, t0, run).Some? && Granted(Exec(cfg, t0, run).value, id)
    ensures GrantAt(cfg, Exec(cfg, t0, run).value, id, p)
    ensures forall q: nat :: GrantAt(cfg, Exec(cfg, t0, run).value, id, q) ==> q == p
  {
    Invariant(cfg, t0, run);
    var s := Exec(cfg, t0, run).value;
    assert FlightOk(cfg, s, id);
    p := s.calls[id].pos.value;
    assert AdmissionOk(cfg, s, p);
    forall q: nat | GrantAt(cfg, s, id, q) ensures q == p {
      assert AdmissionOk(cfg, s, q);
    }
  }

  /** Two grants of one token id lie more than `capacity` admissions apart. */
  lemma GrantsAreFarApart(cfg: Config, t0: int, run: seq<Event>, id1: nat, id2: nat, p1: nat, p2: nat)
    requires Exec(cfg, t0, run).Some? && cfg.capacity > 0 && id1 != id2
    requires var s := Exec(cfg, t0, run).value;
             && GrantAt(cfg, s, id1, p1) && GrantAt(cfg, s, id2, p2)
             && s.admissions[p1].cred.Jti() == s.admissions[p2].cred.Jti()
    ensures p1 - p2 > cfg.capacity || p2 - p1 > cfg.capacity
  {
    hide Exec, ShellGrants, AdmissionOk;
    Invariant(cfg, t0, run);
    var s := Exec(cfg, t0, run).value;
    EqualKeysFarApart(cfg, s, p1, p2);
  }

  lemma EqualKeysFarApart(cfg: Config, s: State, p: nat, q: nat)
    requires AdmissionsOk(cfg, s) && RepeatsFurtherThan(s.admitted, cfg.capacity)
    requires p < |s.admissions| && q < |s.admissions| && p != q && s.admissions[p].key == s.admissions[q].key
    ensures p - q > cfg.capacity || q - p > cfg.capacity
  {
    assert AdmissionOk(cfg, s, p) && AdmissionOk(cfg, s, q);
    assert s.admitted[p] == s.admitted[q];
  }

  /** A handler start made on behalf of a token. */
  predicate TokenStart(s: State, k: nat) {
    k < |s.starts| && s.starts[k].who.Some?
  }

  function StartKey(s: State, k: nat): string
    requires TokenStart(s, k)
  {
    KeyOf(s.starts[k].call, s.starts[k].who.value)
  }

  /** `p` is where the call behind start `k` stands in the admission log. */
  predicate StartAdmittedAt(s: State, k: nat, p: nat) {
    && TokenStart(s, k)
    && p < |s.admissions|
    && s.admissions[p].id == s.starts[k].id
    && s.admissions[p].key == StartKey(s, k)
    && s.admissions[p].cred == s.starts[k].who.value
  }

  /** Every token start has exactly one admission, its own. */
  lemma StartHasAdmission(cfg: Config, t0: int, run: seq<Event>, k: nat) returns (p: nat)
    requires Exec(cfg, t0, run).Some? && TokenStart(Exec(cfg, t0, run).value, k)
    ensures StartAdmittedAt(Exec(cfg, t0, run).value, k, p)
    ensures forall q: nat :: StartAdmittedAt(Exec(cfg, t0, run).value, k, q) ==> q == p
  {
    Invariant(cfg, t0, run);
    var s := Exec(cfg, t0, run).value;
    assert StartOk(cfg, s, k);
    p := s.calls[s.starts[k].id].pos.value;
    assert FlightOk(cfg, s, s.starts[k].id);
    assert AdmissionOk(cfg, s, p);
    forall q: nat | StartAdmittedAt(s, k, q) ensures q == p {
      assert AdmissionOk(cfg, s, q);
    }
  }

  /**
   Window at-most-once, without a clock: in any interleaving, two handler starts
   for one key stand more than `capacity` positions apart in the admission log.
   */
  lemma WindowAtMostOnce(cfg: Config, t0: int, run: seq<Event>, k1: nat, k2: nat, p1: nat, p2: nat)
    requires Exec(cfg, t0, run).Some? && cfg.capacity > 0
    requires var s := Exec(cfg, t0, run).value;
             && k1 != k2 && StartAdmittedAt(s, k1, p1) && StartAdmittedAt(s, k2, p2)
             && StartKey(s, k1) == StartKey(s, k2)
    ensures p1 - p2 > cfg.capacity || p2 - p1 > cfg.capacity
  {
    Invariant(cfg, t0, run);
    var s := Exec(cfg, t0, run).value;
    assert StartOk(cfg, s, k1) && StartOk(cfg, s, k2);
    DistinctStartsFarApart(cfg, s, k1, k2, p1, p2);
  }

  lemma DistinctStartsFarApart(cfg: Config, s: State, k1: nat, k2: nat, p1: nat, p2: nat)
    requires AdmissionsOk(cfg, s) && RepeatsFurtherThan(s.admitted, cfg.capacity)
    requires k1 != k2 && StartAdmittedAt(s, k1, p1) && StartAdmittedAt(s, k2, p2)
    requires StartKey(s, k1) == StartKey(s, k2)
    requires s.starts[k1].id in s.calls && s.calls[s.starts[k1].id].startAt == Some(k1)
    requires s.starts[k2].id in s.calls && s.calls[s.starts[k2].id].startAt == Some(k2)
    ensures p1 - p2 > cfg.capacity || p2 - p1 > cfg.capacity
  {
    assert AdmissionOk(cfg, s, p1) && AdmissionOk(cfg, s, p2);
    assert s.admitted[p1] == s.admitted[p2];
    assert p1 != p2;
  }

  /** Every admitted token lives at most `lifetime` seconds. */
  ghost predicate BoundedLifetime(s: State, lifetime: int) {
    forall i :: 0 <= i < |s.admissions| ==> s.admissions[i].cred.Exp() - s.admissions[i].cred.Iat() <= lifetime
  }

  /** A token id stands for one token. */
  ghost predicate TokenIdsUnique(s: State) {
    forall i, j :: 0 <= i < j < |s.admissions| && s.admissions[i].cred.Jti() == s.admissions[j].cred.Jti() ==>
      && s.admissions[i].cred.Iat() == s.admissions[j].cred.Iat()
      && s.admissions[i].cred.Exp() == s.admissions[j].cred.Exp()
  }

  /** From clock check to admission at most `delay` seconds pass. */
  ghost predicate PromptAdmission(s: State, delay: int) {
    forall i :: 0 <= i < |s.admissions| ==> s.admissions[i].at - s.admissions[i].cred.at <= delay
  }

  /** No interval shorter than `span` holds admissions more than `capacity` positions apart. */
  ghost predicate BoundedRate(s: State, capacity: nat, span: int) {
    forall p, q :: 0 <= p < q < |s.admissions| && q - p > capacity ==> s.admissions[q].at - s.admissions[p].at >= span
  }

  lemma SameTokenReuseIsClose(cfg: Config, s: State, p: nat, q: nat, lifetime: int, delay: int)
    requires Inv(cfg, s) && p < q < |s.admissions|
    requires s.admissions[p].cred.Jti() == s.admissions[q].cred.Jti()
    requires BoundedLifetime(s, lifetime) && TokenIdsUnique(s) && PromptAdmission(s, delay)
    ensures s.admissions[q].at - s.admissions[p].at < lifetime + 2 * CLOCK_SKEW_SECS + delay
  {
    assert AdmissionOk(cfg, s, p) && AdmissionOk(cfg, s, q);
  }

  /**
   Global at-most-once: under the rate the replay cache is sized for, one
   (token id, request id) pair starts the handler at most once in the whole run.
   */
  lemma GlobalAtMostOnce(cfg: Config, t0: int, run: seq<Event>, lifetime: int, delay: int, k1: nat, k2: nat)
    requires Exec(cfg, t0, run).Some? && cfg.capacity > 0
    requires var s := Exec(cfg, t0, run).value;
             && BoundedLifetime(s, lifetime) && TokenIdsUnique(s) && PromptAdmission(s, delay)
             && BoundedRate(s, cfg.capacity, lifetime + 2 * CLOCK_SKEW_SECS + delay)
             && TokenStart(s, k1) && TokenStart(s, k2)
             && s.starts[k1].who.value.Jti() == s.starts[k2].who.value.Jti()
             && s.starts[k1].call.Rpc? && s.starts[k2].call.Rpc?
             && s.starts[k1].call.requestId == s.starts[k2].call.requestId
    ensures k1 == k2
  {
    if k1 != k2 {
      Invariant(cfg, t0, run);
      var s := Exec(cfg, t0, run).value;
      var p1 := StartHasAdmission(cfg, t0, run, k1);
      var p2 := StartHasAdmission(cfg, t0, run, k2);
      WindowAtMostOnce(cfg, t0, run, k1, k2, p1, p2);
      SameTokenReuseIsClose(cfg, s, if p1 < p2 then p1 else p2, if p1 < p2 then p2 else p1, lifetime, delay);
      assert false;
    }
  }

  // ----- authorization -----

  /**
   Every handler start in every run is either a token-less safe read by the
   anonymous actor, or carries claims a trusted key signed for exactly this
   request, valid when checked, permitted by table, body and system policy, and
   audited for the same call before the handler began.
   */
  lemma StartsAreAuthorized(cfg: Config, t0: int, run: seq<Event>, k: nat)
    requires Exec(cfg, t0, run).Some? && k < |Exec(cfg, t0, run).value.starts|
    ensures var s := Exec(cfg, t0, run).value;
            var h := s.starts[k];
            && h.call.Rpc?
            && (h.who.None? ==> h.call.token.None? && IsSafeVerb(h.call.env.verb) && h.actor == ANONYMOUS)
            && (h.who.Some? ==>
                  && h.call.token.Some? && h.who.value.RpcCredential?
                  && h.actor == ActorOf(h.who.value.claims)
                  && h.who.value.at <= h.at
                  && Grants(cfg.verifier, h.call.token.value, h.call.env, h.who.value.at, h.who.value.claims)
                  && AllowsRpc(cfg.verifier, h.actor, h.call.env, h.call.body, true)
                  && (IsSystemSubject(h.actor.sub) ==> h.call.name in cfg.policy)
                  && exists a :: 0 <= a < h.auditsBefore <= |s.audits|
                       && s.audits[a] == AuditRecord(h.id, h.call.name, h.call.env, h.actor))
  {
    Invariant(cfg, t0, run);
    assert StartOk(cfg, Exec(cfg, t0, run).value, k);
  }

  // ----- byte-identical replay -----

  /**
   Every response-cache hit, in any interleaving, returns exactly the bytes of
   the latest handler run stored under its key, and the call it answers was never
   admitted, audited or run. For token ids without the separator that run
   belongs to the same (token id, request id) pair.
   */
  lemma HitsReplayLatest(cfg: Config, t0: int, run: seq<Event>, n: nat) returns (m: nat)
    requires Exec(cfg, t0, run).Some? && n < |Exec(cfg, t0, run).value.hits|
    ensures var s := Exec(cfg, t0, run).value;
            var h := s.hits[n];
            && h.storesBefore <= |s.history| == |s.storedBy|
            && Latest(s.history[..h.storesBefore], m, h.key)
            && m < h.storesBefore
            && s.history[m].body == h.body
            && h.id in s.calls && s.calls[h.id].phase == Done(CachedResponse(h.body))
            && (forall k :: 0 <= k < |s.starts| ==> s.starts[k].id != h.id)
            && (forall a :: 0 <= a < |s.audits| ==> s.audits[a].id != h.id)
            && (forall p :: 0 <= p < |s.admissions| ==> s.admissions[p].id != h.id)
            && (exists k: nat :: TokenStart(s, k) && s.starts[k].id == s.storedBy[m].id
                  && s.starts[k].id in s.results && s.results[s.starts[k].id] == h.body
                  && StartKey(s, k) == h.key
                  && ('|' !in h.cred.Jti() && '|' !in s.starts[k].who.value.Jti() ==>
                        && s.starts[k].who.value.Jti() == h.cred.Jti()
                        && s.starts[k].call.Rpc? && s.calls[h.id].call.Rpc?
                        && s.starts[k].call.requestId == s.calls[h.id].call.requestId))
  {
    Invariant(cfg, t0, run);
    var s := Exec(cfg, t0, run).value;
    var h := s.hits[n];
    assert HitOk(cfg, s, n);
    m :| Latest(s.history[..h.storesBefore], m, h.key) && s.history[..h.storesBefore][m].body == h.body;
    assert StoreOk(cfg, s, m);
    var k := s.calls[s.storedBy[m].id].startAt.value;
    assert FlightOk(cfg, s, s.storedBy[m].id);
    HitLeavesNoLog(cfg, s, n);
    hide CredentialOk, Permitted, MayBeCached, UsesResponseCache, ComposeKey;
    assert StartOk(cfg, s, k);
    if '|' !in h.cred.Jti() && '|' !in s.starts[k].who.value.Jti() {
      ComposeKeyInjective(h.cred.Jti(), s.calls[h.id].call.requestId,
                          s.starts[k].who.value.Jti(), s.starts[k].call.requestId);
    }
    assert TokenStart(s, k);
  }

  /** A call answered from the response cache appears in no other log. */
  lemma HitLeavesNoLog(cfg: Config, s: State, n: nat)
    requires Inv(cfg, s) && n < |s.hits|
    ensures forall k :: 0 <= k < |s.starts| ==> s.starts[k].id != s.hits[n].id
    ensures forall a :: 0 <= a < |s.audits| ==> s.audits[a].id != s.hits[n].id
    ensures forall p :: 0 <= p < |s.admissions| ==> s.admissions[p].id != s.hits[n].id
  {
    hide CredentialOk, Permitted, MayBeCached, KeyOf;
    assert HitOk(cfg, s, n);
    forall k | 0 <= k < |s.starts| ensures s.starts[k].id != s.hits[n].id {
      assert StartOk(cfg, s, k);
    }
    forall p | 0 <= p < |s.admissions| ensures s.admissions[p].id != s.hits[n].id {
      assert AdmissionOk(cfg, s, p);
    }
  }
}
