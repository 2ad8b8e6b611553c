/**
 Who may reach a handler or a cached response, in any run, said in terms of the
 claims a trusted key signed, the action table and the body.
 */
module RpcAuthority {
  import opened Common
  import opened Strings
  import opened ActorToken
  import opened ReplayCache
  import opened ResponseCache
  import opened RpcProtocol
  import opened RpcSafety
  import opened RpcLockstep

  /** The token's signed claims entitle `actor` to make the call at time `at`. */
  ghost predicate Entitled(cfg: Config, call: Call, c: Claims, at: int, actor: Actor) {
    && call.Rpc? && call.token.Some?
    && (exists payload :: SignedPayload(cfg.verifier, call.token.value, payload)
                          && cfg.verifier.codec.claims(payload) == Some(c))
    && c.aud == "nexus-edge-rpc" && c.coreId == cfg.verifier.coreId
    && c.httpMethod == call.env.verb && c.path == call.env.path
    && c.iat - 30 <= at < c.exp + 30
    && actor == Actor(c.sub, c.role, c.perm, c.jti, c.orgId, c.actorOrgId)
    && SystemRule(actor, call.env)
    && PermissionRule(cfg.verifier, actor, call.env, call.body)
  }

  lemma CredentialEntitles(cfg: Config, call: Call, cred: Credential, clock: int)
    requires CredentialOk(cfg, call, cred, clock) && call.Rpc?
    requires AllowsRpc(cfg.verifier, cred.Who(), call.env, call.body, true)
    ensures Entitled(cfg, call, cred.claims, cred.at, cred.Who())
  {
    AllowsRpcIff(cfg.verifier, cred.Who(), call.env, call.body);
    hide AllowsRpc, SystemRule, PermissionRule, SignedPayload, RpcPermissions, AllowsSystemAction;
  }

  /**
   Every handler start in every run: a token-less safe read under the anonymous name,
   or a call its signed claims entitle to, under the system policy, audited before.
   */
  lemma StartsAreEntitled(cfg: Config, t0: int, run: seq<Event>, k: nat)
    requires Exec(cfg, t0, run).Some? && k < |Exec(cfg, t0, run).value.starts|
    ensures var s := Exec(cfg, t0, run).value;
            var h := s.starts[k];
            && h.call.Rpc?
            && (h.who.None? ==>
                  && h.call.token.None? && SafeRead(h.call.env.verb)
                  && h.actor == Actor("anonymous:cloud-read", "anonymous", None, "", "", None))
            && (h.who.Some? ==>
                  && h.who.value.RpcCredential? && h.who.value.at <= h.at
                  && Entitled(cfg, h.call, h.who.value.claims, h.who.value.at, h.actor)
                  && ("system:" <= h.actor.sub ==> h.call.name in cfg.policy)
                  && exists a :: 0 <= a < h.auditsBefore <= |s.audits|
                       && s.audits[a] == AuditRecord(h.id, h.call.name, h.call.env, h.actor))
  {
    Invariant(cfg, t0, run);
    var s := Exec(cfg, t0, run).value;
    var h := s.starts[k];
    assert StartOk(cfg, s, k);
    if h.who.Some? {
      CredentialEntitles(cfg, h.call, h.who.value, h.at);
    } else {
      UpperIff(h.call.env.verb, "GET");
      UpperIff(h.call.env.verb, "HEAD");
      UpperIff(h.call.env.verb, "OPTIONS");
    }
  }

  /** The record names a call that its signed claims entitle to, under the system policy, as `cred` says. */
  ghost predicate AuditEntitled(cfg: Config, s: State, a: AuditRecord, cred: Credential) {
    && a.id in s.calls && cred.RpcCredential? && cred.at <= s.clock
    && Entitled(cfg, s.calls[a.id].call, cred.claims, cred.at, a.actor)
    && a.name == s.calls[a.id].call.name && a.env == s.calls[a.id].call.env
    && ("system:" <= a.actor.sub ==> a.name in cfg.policy)
  }

  /** Nothing refused is ever audited as having been let through. */
  lemma {:induction false} AuditsAreEntitled(cfg: Config, t0: int, run: seq<Event>, a: nat)
    returns (cred: Credential)
    requires Exec(cfg, t0, run).Some? && a < |Exec(cfg, t0, run).value.audits|
    ensures var s := Exec(cfg, t0, run).value;
            AuditEntitled(cfg, s, s.audits[a], cred)
  {
    var init, e := run[..|run| - 1], run[|run| - 1];
    var s := Exec(cfg, t0, init).value;
    Invariant(cfg, t0, init);
    hide Exec;
    if a < |s.audits| {
      cred := AuditsAreEntitled(cfg, t0, init, a);
      AuditLasts(cfg, s, e, a, cred);
    } else {
      AuditAppears(cfg, s, e, a);
      cred := s.calls[e.id].phase.cred;
    }
  }

  lemma AuditLasts(cfg: Config, s: State, e: Event, a: nat, cred: Credential)
    requires Enabled(cfg, s, e) && a < |s.audits| && AuditEntitled(cfg, s, s.audits[a], cred)
    ensures var t := Apply(cfg, s, e);
            a < |t.audits| && t.audits[a] == s.audits[a] && AuditEntitled(cfg, t, t.audits[a], cred)
  {
    hide Entitled, VerifyPhase, AllowsRpc, Insert, Put, Lookup;
    var id := s.audits[a].id;
    if !e.Tick? && !e.Arrive? {
      StepKeepsCall(cfg, s, e);
      OthersKept(cfg, s, e);
    }
  }

  lemma AuditAppears(cfg: Config, s: State, e: Event, a: nat)
    requires Inv(cfg, s) && Enabled(cfg, s, e) && |s.audits| <= a < |Apply(cfg, s, e).audits|
    ensures e.Clear? && s.calls[e.id].phase.Admitted?
    ensures var t := Apply(cfg, s, e);
            AuditEntitled(cfg, t, t.audits[a], s.calls[e.id].phase.cred)
  {
    hide Entitled, CredentialOk, VerifyPhase, AllowsRpc, Insert, Put, Lookup;
    assert e.Clear?;
    var f := s.calls[e.id];
    assert FlightOk(cfg, s, e.id);
    CredentialEntitles(cfg, f.call, f.phase.cred, s.clock);
    PastCredential(cfg, f.call, f.phase.cred, s.clock);
  }

  lemma PastCredential(cfg: Config, call: Call, cred: Credential, clock: int)
    requires CredentialOk(cfg, call, cred, clock) && call.Rpc?
    ensures cred.RpcCredential? && cred.at <= clock
  {
  }

  /** Every response-cache hit in every run answers a call its own signed claims entitle to. */
  lemma HitsAreEntitled(cfg: Config, t0: int, run: seq<Event>, n: nat)
    requires Exec(cfg, t0, run).Some? && n < |Exec(cfg, t0, run).value.hits|
    ensures var s := Exec(cfg, t0, run).value;
            var h := s.hits[n];
            && h.id in s.calls && h.cred.RpcCredential? && h.cred.at <= s.clock
            && Entitled(cfg, s.calls[h.id].call, h.cred.claims, h.cred.at, h.cred.Who())
  {
    Invariant(cfg, t0, run);
    var s := Exec(cfg, t0, run).value;
    assert HitOk(cfg, s, n);
    CredentialEntitles(cfg, s.calls[s.hits[n].id].call, s.hits[n].cred, s.clock);
  }

  /** On the cached path no call uses up a replay key that its claims do not entitle to. */
  lemma CachedAdmissionsAreEntitled(cfg: Config, t0: int, run: seq<Event>, p: nat)
    requires Exec(cfg, t0, run).Some? && p < |Exec(cfg, t0, run).value.admissions|
    requires var s := Exec(cfg, t0, run).value;
             s.admissions[p].id in s.calls && UsesResponseCache(cfg, s.calls[s.admissions[p].id].call)
    ensures var s := Exec(cfg, t0, run).value;
            var a := s.admissions[p];
            && a.cred.RpcCredential? && a.cred.at <= a.at
            && Entitled(cfg, s.calls[a.id].call, a.cred.claims, a.cred.at, a.cred.Who())
  {
    Invariant(cfg, t0, run);
    var s := Exec(cfg, t0, run).value;
    assert AdmissionOk(cfg, s, p);
    CredentialEntitles(cfg, s.calls[s.admissions[p].id].call, s.admissions[p].cred, s.admissions[p].at);
  }

  /**
   A verified call on the cached path that the rules forbid is refused at once for its
   permission, and leaves both caches and every log as they were.
   */
  lemma ForbiddenLeavesNoTrace(cfg: Config, t0: int, run: seq<Event>, id: nat, c: Claims)
    requires Exec(cfg, t0, run).Some?
    requires var s := Exec(cfg, t0, run).value;
             && id in s.calls && s.calls[id].phase.Arrived? && UsesResponseCache(cfg, s.calls[id].call)
             && VerifyNoReplay(cfg.verifier, s.calls[id].call.token.value, s.calls[id].call.env, s.clock) == Ok(c)
             && !(SystemRule(ActorOf(c), s.calls[id].call.env)
                  && PermissionRule(cfg.verifier, ActorOf(c), s.calls[id].call.env, s.calls[id].call.body))
    ensures var s := Exec(cfg, t0, run).value;
            var after := Exec(cfg, t0, run + [Verify(id)]);
            && after.Some?
            && after.value == s.(calls := s.calls[id := s.calls[id].(phase := Done(Rejected(PermissionMismatch)))])
            && forall e: Event :: !e.Tick? && !e.Arrive? && e.id == id ==> !Enabled(cfg, after.value, e)
  {
    hide Exec, Apply, Enabled, VerifyNoReplay, SystemRule, PermissionRule;
    var s := Exec(cfg, t0, run).value;
    ForbiddenIsRefused(cfg, s, id, c);
    RunStep(cfg, t0, run, s, Verify(id));
  }

  lemma ForbiddenIsRefused(cfg: Config, s: State, id: nat, c: Claims)
    requires id in s.calls && s.calls[id].phase.Arrived? && UsesResponseCache(cfg, s.calls[id].call)
    requires VerifyNoReplay(cfg.verifier, s.calls[id].call.token.value, s.calls[id].call.env, s.clock) == Ok(c)
    requires !(SystemRule(ActorOf(c), s.calls[id].call.env)
               && PermissionRule(cfg.verifier, ActorOf(c), s.calls[id].call.env, s.calls[id].call.body))
    ensures Enabled(cfg, s, Verify(id))
    ensures var t := Apply(cfg, s, Verify(id));
            && t == s.(calls := s.calls[id := s.calls[id].(phase := Done(Rejected(PermissionMismatch)))])
            && forall e: Event :: !e.Tick? && !e.Arrive? && e.id == id ==> !Enabled(cfg, t, e)
  {
    hide VerifyNoReplay, AllowsRpc, SystemRule, PermissionRule;
    var call := s.calls[id].call;
    AllowsRpcIff(cfg.verifier, ActorOf(c), call.env, call.body);
    assert VerifyPhase(cfg, call, s.clock) == Done(Rejected(PermissionMismatch));
  }

  /** Every shell grant in every run: a token signed for that very session, under the names its claims give. */
  lemma GrantsAreEntitled(cfg: Config, t0: int, run: seq<Event>, id: nat) returns (p: nat)
    requires Exec(cfg, t0, run).Some? && Granted(Exec(cfg, t0, run).value, id)
    ensures var s := Exec(cfg, t0, run).value;
            && p < |s.admissions| && s.admissions[p].id == id && s.admissions[p].cred.ShellCredential?
            && s.calls[id].call.Shell?
            && var c, at := s.admissions[p].cred.shell, s.admissions[p].cred.at;
               && s.admissions[p].key == c.jti
               && (exists payload :: SignedPayload(cfg.verifier, s.calls[id].call.shellToken, payload)
                                     && cfg.verifier.codec.shellClaims(payload) == Some(c))
               && c.aud == "nexus-edge-shell" && c.coreId == cfg.verifier.coreId
               && c.sessionId == s.calls[id].call.sessionId && c.iat - 30 <= at < c.exp + 30
               && s.calls[id].phase == Done(ShellGranted(Actor(c.sub, c.role, None, c.jti, c.orgId, None)))
  {
    p := GrantHasAdmission(cfg, t0, run, id);
    hide SignedPayload;
  }

  /** `key` names the token id alone, or the token id and the request id around a bar. */
  predicate NamesPair(key: string, jti: string, requestId: Option<string>) {
    key == if requestId.Some? then jti + "|" + requestId.value else jti
  }

  /** An admission carries its own call's signed token id, joined with the call's request id when it has one. */
  ghost predicate AdmissionKeyed(s: State, p: nat)
    requires p < |s.admissions|
  {
    var a := s.admissions[p];
    && a.id in s.calls
    && match a.cred
       case RpcCredential(c, _) => s.calls[a.id].call.Rpc? && NamesPair(a.key, c.jti, s.calls[a.id].call.requestId)
       case ShellCredential(c, _) => NamesPair(a.key, c.jti, None)
  }

  ghost predicate HitKeyed(s: State, n: nat)
    requires n < |s.hits|
  {
    var h := s.hits[n];
    && h.id in s.calls && s.calls[h.id].call.Rpc? && h.cred.RpcCredential?
    && NamesPair(h.key, h.cred.claims.jti, s.calls[h.id].call.requestId)
  }

  /** A store is made under the key its own call was admitted with. */
  ghost predicate StoreKeyed(s: State, m: nat)
    requires m < |s.history| == |s.storedBy|
  {
    var id, pos := s.storedBy[m].id, s.storedBy[m].pos;
    pos < |s.admissions| && s.admissions[pos].id == id && s.history[m].key == s.admissions[pos].key
  }

  /** What both caches are keyed on, in every run. */
  lemma KeysNameTheirPair(cfg: Config, t0: int, run: seq<Event>)
    requires Exec(cfg, t0, run).Some?
    ensures var s := Exec(cfg, t0, run).value;
            && |s.admitted| == |s.admissions| && |s.storedBy| == |s.history|
            && (forall p: nat :: p < |s.admissions| ==> AdmissionKeyed(s, p) && s.admissions[p].key == s.admitted[p])
            && (forall n: nat :: n < |s.hits| ==> HitKeyed(s, n))
            && (forall m: nat :: m < |s.history| ==> StoreKeyed(s, m))
  {
    Invariant(cfg, t0, run);
    var s := Exec(cfg, t0, run).value;
    hide *;
    KeysKnown(cfg, s);
  }

  lemma KeysKnown(cfg: Config, s: State)
    requires Inv(cfg, s)
    ensures |s.admitted| == |s.admissions| && |s.storedBy| == |s.history|
    ensures forall p: nat :: p < |s.admissions| ==> AdmissionKeyed(s, p) && s.admissions[p].key == s.admitted[p]
    ensures forall n: nat :: n < |s.hits| ==> HitKeyed(s, n)
    ensures forall m: nat :: m < |s.history| ==> StoreKeyed(s, m)
  {
    forall p: nat | p < |s.admissions| ensures AdmissionKeyed(s, p) && s.admissions[p].key == s.admitted[p] {
      AdmissionKey(cfg, s, p);
    }
    forall n: nat | n < |s.hits| ensures HitKeyed(s, n) {
      HitKey(cfg, s, n);
    }
    forall m: nat | m < |s.history| ensures StoreKeyed(s, m) {
      StoreKey(cfg, s, m);
    }
  }

  lemma AdmissionKey(cfg: Config, s: State, p: nat)
    requires Inv(cfg, s) && p < |s.admissions|
    ensures |s.admitted| == |s.admissions| && AdmissionKeyed(s, p) && s.admissions[p].key == s.admitted[p]
  {
    assert AdmissionOk(cfg, s, p);
  }

  lemma HitKey(cfg: Config, s: State, n: nat)
    requires Inv(cfg, s) && n < |s.hits|
    ensures HitKeyed(s, n)
  {
    assert HitOk(cfg, s, n);
  }

  lemma StoreKey(cfg: Config, s: State, m: nat)
    requires Inv(cfg, s) && m < |s.history|
    ensures |s.storedBy| == |s.history| && StoreKeyed(s, m)
  {
    assert StoreOk(cfg, s, m);
    var id, pos := s.storedBy[m].id, s.storedBy[m].pos;
    assert FlightOk(cfg, s, id);
    assert AdmissionOk(cfg, s, pos);
    assert StartOk(cfg, s, s.calls[id].startAt.value);
  }
}
