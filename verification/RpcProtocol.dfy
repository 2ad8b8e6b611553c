/**
 The admission protocol of inbound calls as a step system. Any number of calls
 are in flight at once; every cache operation, audit write and handler start is
 one atomic step, and steps of different calls interleave freely. Remote-shell
 grants share the replay cache and take part as calls of their own.
 */
module RpcProtocol {
  import opened Common
  import opened ActorToken
  import opened ReplayCache
  import opened ResponseCache

  datatype Call =
    | Rpc(name: string, env: Envelope, token: Option<string>, requestId: Option<string>, body: Option<bytes>)
    | Shell(shellToken: string, sessionId: string)

  /** `responseCapacity` is absent when no response cache is installed. */
  datatype Config = Config(verifier: Verifier, capacity: nat, responseCapacity: Option<nat>, policy: set<string>)

  /** The verified claims of a call and the clock reading they were checked against. */
  datatype Credential =
    | RpcCredential(claims: Claims, at: int)
    | ShellCredential(shell: ShellClaims, at: int)
  {
    function Jti(): string { if RpcCredential? then claims.jti else shell.jti }
    function Iat(): nat { if RpcCredential? then claims.iat else shell.iat }
    function Exp(): nat { if RpcCredential? then claims.exp else shell.exp }
    function Who(): Actor { if RpcCredential? then ActorOf(claims) else ShellActorOf(shell) }
  }

  datatype Outcome =
    | Response(body: bytes)
    | CachedResponse(body: bytes)
    | HandlerFailed
    | TokenMissing
    | Rejected(reason: InvalidReason)
    | ShellGranted(actor: Actor)

  /** How far a call has come. `Running(None)` is the token-less read path. */
  datatype Phase =
    | Arrived
    | Verified(cred: Credential)
    | Missed(cred: Credential)
    | Admitted(cred: Credential)
    | Cleared(cred: Credential)
    | Running(who: Option<Credential>)
    | Returned(cred: Credential, body: bytes)
    | Done(outcome: Outcome)

  /** A call, its phase, and where it appears in the admission, audit and start logs. */
  datatype Flight = Flight(call: Call, phase: Phase, pos: Option<nat>, auditAt: Option<nat>, startAt: Option<nat>)

  datatype Admission = Admission(id: nat, key: string, cred: Credential, at: int)
  datatype AuditRecord = AuditRecord(id: nat, name: string, env: Envelope, actor: Actor)
  datatype HandlerStart = HandlerStart(
    id: nat, call: Call, who: Option<Credential>, actor: Actor, at: int, auditsBefore: nat)
  datatype StoredBy = StoredBy(id: nat, pos: nat)
  datatype Hit = Hit(id: nat, cred: Credential, key: string, body: bytes, storesBefore: nat)

  /** Shared state, calls in flight, and append-only logs of what has happened. */
  datatype State = State(
    clock: int,
    replay: Replay,
    responses: Responses,
    calls: map<nat, Flight>,
    admitted: seq<string>,
    admissions: seq<Admission>,
    audits: seq<AuditRecord>,
    starts: seq<HandlerStart>,
    history: seq<Stored>,
    storedBy: seq<StoredBy>,
    results: map<nat, bytes>,
    hits: seq<Hit>)

  datatype Event =
    | Tick(now: int)
    | Arrive(id: nat, call: Call)
    | Verify(id: nat)
    | Look(id: nat)
    | Admit(id: nat)
    | Clear(id: nat)
    | Start(id: nat)
    | Finish(id: nat, result: Option<bytes>)
    | Store(id: nat)

  function Initial(clock: int): State {
    State(clock, EMPTY_REPLAY, EMPTY_RESPONSES, map[], [], [], [], [], [], [], map[], [])
  }

  /** No response cache behaves like one that holds nothing. */
  function ResponseCapacity(cfg: Config): nat {
    if cfg.responseCapacity.Some? then cfg.responseCapacity.value else 0
  }

  predicate UsesResponseCache(cfg: Config, call: Call) {
    call.Rpc? && call.token.Some? && call.requestId.Some? && cfg.responseCapacity.Some?
  }

  function KeyOf(call: Call, cred: Credential): string {
    ComposeKey(cred.Jti(), if call.Rpc? then call.requestId else None)
  }

  const ANONYMOUS := Actor("anonymous:cloud-read", "anonymous", None, "", "", None)

  predicate AnonymousRead(call: Call) {
    call.Rpc? && call.token.None? && IsSafeVerb(call.env.verb)
  }

  function WithPhase(s: State, id: nat, phase: Phase): State
    requires id in s.calls
  {
    s.(calls := s.calls[id := s.calls[id].(phase := phase)])
  }

  predicate Enabled(cfg: Config, s: State, e: Event) {
    match e
    case Tick(now) => now >= s.clock
    case Arrive(id, _) => id !in s.calls
    case _ =>
      e.id in s.calls &&
      var f := s.calls[e.id];
      match e
      case Verify(_) => f.phase.Arrived? && !AnonymousRead(f.call)
      case Look(_) => f.phase.Verified? && UsesResponseCache(cfg, f.call)
      case Admit(_) => f.phase.Missed? || (f.phase.Verified? && !UsesResponseCache(cfg, f.call))
      case Clear(_) => f.phase.Admitted?
      case Start(_) => f.phase.Cleared? || (f.phase.Arrived? && AnonymousRead(f.call))
      case Finish(_, _) => f.phase.Running?
      case Store(_) => f.phase.Returned?
  }

  /** Token checks that precede both caches; the response-cache path also checks the body here. */
  ghost function VerifyPhase(cfg: Config, call: Call, now: int): Phase {
    match call
    case Shell(token, sessionId) =>
      (match VerifyShellNoReplay(cfg.verifier, token, sessionId, now)
       case Err(e) => Done(Rejected(e))
       case Ok(c) => Verified(ShellCredential(c, now)))
    case Rpc(_, env, token, _, body) =>
      if token.None? then Done(TokenMissing)
      else match VerifyNoReplay(cfg.verifier, token.value, env, now)
        case Err(e) => Done(Rejected(e))
        case Ok(c) =>
          if UsesResponseCache(cfg, call) && !AllowsRpc(cfg.verifier, ActorOf(c), env, body, true)
          then Done(Rejected(PermissionMismatch))
          else Verified(RpcCredential(c, now))
  }

  /** Lookup in the response cache: a hit ends the call, a miss goes on to admission. */
  function LookStep(cfg: Config, s: State, id: nat): State
    requires id in s.calls && s.calls[id].phase.Verified? && UsesResponseCache(cfg, s.calls[id].call)
  {
    var f := s.calls[id];
    var key := KeyOf(f.call, f.phase.cred);
    match Lookup(s.responses, cfg.responseCapacity.value, key)
    case Some(body) =>
      WithPhase(s, id, Done(CachedResponse(body))).(hits := s.hits + [Hit(id, f.phase.cred, key, body, |s.history|)])
    case None => WithPhase(s, id, Missed(f.phase.cred))
  }

  /** Atomic check-and-insert in the replay cache. A shell grant ends here. */
  function AdmitStep(cfg: Config, s: State, id: nat): State
    requires id in s.calls && (s.calls[id].phase.Missed? || s.calls[id].phase.Verified?)
  {
    var f := s.calls[id];
    var cred := f.phase.cred;
    var key := KeyOf(f.call, cred);
    if !Admissible(s.replay, cfg.capacity, key) then WithPhase(s, id, Done(Rejected(Replayed)))
    else
      var phase := if f.call.Shell? then Done(ShellGranted(cred.Who())) else Admitted(cred);
      s.(replay := Insert(s.replay, cfg.capacity, key),
         admitted := s.admitted + [key],
         admissions := s.admissions + [Admission(id, key, cred, s.clock)],
         calls := s.calls[id := f.(phase := phase, pos := Some(|s.admissions|))])
  }

  /** Body permission (for calls not checked before), system-subject gate, then the audit record. */
  ghost function ClearStep(cfg: Config, s: State, id: nat): State
    requires id in s.calls && s.calls[id].phase.Admitted?
  {
    var f := s.calls[id];
    var cred := f.phase.cred;
    if f.call.Shell? || !AllowsRpc(cfg.verifier, cred.Who(), f.call.env, f.call.body, true)
    then WithPhase(s, id, Done(Rejected(PermissionMismatch)))
    else if IsSystemSubject(cred.Who().sub) && f.call.name !in cfg.policy
    then WithPhase(s, id, Done(Rejected(SystemSubNotPermittedForMethod)))
    else
      s.(audits := s.audits + [AuditRecord(id, f.call.name, f.call.env, cred.Who())],
         calls := s.calls[id := f.(phase := Cleared(cred), auditAt := Some(|s.audits|))])
  }

  function StartStep(s: State, id: nat): State
    requires id in s.calls
  {
    var f := s.calls[id];
    var who := if f.phase.Cleared? then Some(f.phase.cred) else None;
    var actor := if who.Some? then who.value.Who() else ANONYMOUS;
    s.(starts := s.starts + [HandlerStart(id, f.call, who, actor, s.clock, |s.audits|)],
       calls := s.calls[id := f.(phase := Running(who), startAt := Some(|s.starts|))])
  }

  function FinishStep(cfg: Config, s: State, id: nat, result: Option<bytes>): State
    requires id in s.calls && s.calls[id].phase.Running?
  {
    var f := s.calls[id];
    match result
    case None => WithPhase(s, id, Done(HandlerFailed))
    case Some(body) =>
      var phase :=
        if UsesResponseCache(cfg, f.call) && f.phase.who.Some? then Returned(f.phase.who.value, body)
        else Done(Response(body));
      WithPhase(s, id, phase).(results := s.results[id := body])
  }

  function StoreStep(cfg: Config, s: State, id: nat): State
    requires id in s.calls && s.calls[id].phase.Returned?
  {
    var f := s.calls[id];
    var key, body := KeyOf(f.call, f.phase.cred), f.phase.body;
    var capacity := ResponseCapacity(cfg);
    var pos := if f.pos.Some? then f.pos.value else 0;
    WithPhase(s, id, Done(Response(body))).(
      responses := Put(s.responses, capacity, key, body),
      history := s.history + [Stored(key, body)],
      storedBy := s.storedBy + [StoredBy(id, pos)])
  }

  ghost function Apply(cfg: Config, s: State, e: Event): State
    requires Enabled(cfg, s, e)
  {
    match e
    case Tick(now) => s.(clock := now)
    case Arrive(id, call) => s.(calls := s.calls[id := Flight(call, Arrived, None, None, None)])
    case Verify(id) => WithPhase(s, id, VerifyPhase(cfg, s.calls[id].call, s.clock))
    case Look(id) => LookStep(cfg, s, id)
    case Admit(id) => AdmitStep(cfg, s, id)
    case Clear(id) => ClearStep(cfg, s, id)
    case Start(id) => StartStep(s, id)
    case Finish(id, result) => FinishStep(cfg, s, id, result)
    case Store(id) => StoreStep(cfg, s, id)
  }

  /** The state a run ends in, or nothing when some step was not enabled. */
  ghost function Exec(cfg: Config, t0: int, run: seq<Event>): Option<State> {
    if run == [] then Some(Initial(t0))
    else
      var before := Exec(cfg, t0, run[..|run| - 1]);
      var e := run[|run| - 1];
      if before.Some? && Enabled(cfg, before.value, e) then Some(Apply(cfg, before.value, e)) else None
  }

  // ----- what every reachable state satisfies -----

  /** The token of `call` was verified, at a time already past, and yielded `cred`. */
  ghost predicate CredentialOk(cfg: Config, call: Call, cred: Credential, clock: int) {
    && cred.at <= clock
    && InWindow(cred.Iat(), cred.Exp(), cred.at)
    && (if call.Rpc? then
          && cred.RpcCredential?
          && call.token.Some?
          && Grants(cfg.verifier, call.token.value, call.env, cred.at, cred.claims)
        else
          && cred.ShellCredential?
          && ShellGrants(cfg.verifier, call.shellToken, call.sessionId, cred.at, cred.shell))
  }

  /** The permission, body and system-policy rules hold of the call. */
  ghost predicate Permitted(cfg: Config, call: Call, cred: Credential) {
    && call.Rpc?
    && AllowsRpc(cfg.verifier, cred.Who(), call.env, call.body, true)
    && (IsSystemSubject(cred.Who().sub) ==> call.name in cfg.policy)
  }

  /** A call that may be answered from the response cache passes the permission decision. */
  ghost predicate MayBeCached(cfg: Config, call: Call, cred: Credential) {
    UsesResponseCache(cfg, call) ==> AllowsRpc(cfg.verifier, cred.Who(), call.env, call.body, true)
  }

  ghost predicate CachesOk(cfg: Config, s: State) {
    && Remembers(s.replay, cfg.capacity, s.admitted)
    && s.responses == PutAll(ResponseCapacity(cfg), s.history)
    && Faithful(s.responses, s.history)
    && WellFormed(s.responses, ResponseCapacity(cfg))
  }

  ghost predicate AdmissionsOk(cfg: Config, s: State) {
    && |s.admissions| == |s.admitted|
    && forall i :: 0 <= i < |s.admissions| ==> AdmissionOk(cfg, s, i)
  }

  ghost predicate AdmissionOk(cfg: Config, s: State, i: nat)
    requires i < |s.admissions| == |s.admitted|
  {
    var a := s.admissions[i];
    && a.key == s.admitted[i]
    && a.id in s.calls
    && s.calls[a.id].pos == Some(i)
    && a.key == KeyOf(s.calls[a.id].call, a.cred)
    && a.at <= s.clock
    && CredentialOk(cfg, s.calls[a.id].call, a.cred, a.at)
    && MayBeCached(cfg, s.calls[a.id].call, a.cred)
  }

  /** The call was admitted with `cred`. */
  predicate AdmittedWith(s: State, f: Flight, cred: Credential) {
    f.pos.Some? && f.pos.value < |s.admissions| && s.admissions[f.pos.value].cred == cred
  }

  /** The call was audited as `cred`'s actor before log position `limit`. */
  predicate AuditedWith(s: State, id: nat, f: Flight, cred: Credential, limit: nat) {
    && f.call.Rpc?
    && f.auditAt.Some? && f.auditAt.value < limit <= |s.audits|
    && s.audits[f.auditAt.value] == AuditRecord(id, f.call.name, f.call.env, cred.Who())
  }

  ghost predicate FlightOk(cfg: Config, s: State, id: nat)
    requires id in s.calls
  {
    var f := s.calls[id];
    && (f.startAt.None? ==> id !in s.results)
    && (f.pos.Some? ==> f.pos.value < |s.admissions| && s.admissions[f.pos.value].id == id)
    && (f.startAt.Some? ==> f.startAt.value < |s.starts| && s.starts[f.startAt.value].id == id)
    && match f.phase
    case Arrived => f.pos.None? && f.auditAt.None? && f.startAt.None?
    case Verified(c) => f.pos.None? && f.auditAt.None? && f.startAt.None? && CredentialOk(cfg, f.call, c, s.clock)
                        && MayBeCached(cfg, f.call, c)
    case Missed(c) => f.pos.None? && f.auditAt.None? && f.startAt.None? && CredentialOk(cfg, f.call, c, s.clock)
                      && UsesResponseCache(cfg, f.call) && MayBeCached(cfg, f.call, c)
    case Admitted(c) => f.auditAt.None? && f.startAt.None? && CredentialOk(cfg, f.call, c, s.clock)
                        && AdmittedWith(s, f, c) && f.call.Rpc?
    case Cleared(c) => f.startAt.None? && CredentialOk(cfg, f.call, c, s.clock)
                       && AdmittedWith(s, f, c) && Permitted(cfg, f.call, c) && AuditedWith(s, id, f, c, |s.audits|)
    case Running(who) => id !in s.results && (who.None? ==> !UsesResponseCache(cfg, f.call))
                         && f.startAt.Some? && f.startAt.value < |s.starts|
                         && s.starts[f.startAt.value].who == who && (who.Some? ==> f.pos.Some?)
    case Returned(c, body) => id in s.results && s.results[id] == body && UsesResponseCache(cfg, f.call)
                              && f.startAt.Some? && f.startAt.value < |s.starts|
                              && s.starts[f.startAt.value].who == Some(c) && f.pos.Some?
    case Done(outcome) => OutcomeOk(s, id, f, outcome)
  }

  /** A response is what the call's handler returned; a shell grant is an admission of its own. */
  predicate OutcomeOk(s: State, id: nat, f: Flight, outcome: Outcome) {
    && (outcome.Response? ==> id in s.results && s.results[id] == outcome.body)
    && (outcome.ShellGranted? ==>
          && f.call.Shell?
          && f.pos.Some? && f.pos.value < |s.admissions|
          && s.admissions[f.pos.value].cred.Who() == outcome.actor)
  }

  ghost predicate FlightsOk(cfg: Config, s: State) {
    forall id :: id in s.calls ==> FlightOk(cfg, s, id)
  }

  /** Everything one handler start implies; see `StartsAreAuthorized`. */
  ghost predicate StartOk(cfg: Config, s: State, k: nat)
    requires k < |s.starts|
  {
    var h := s.starts[k];
    && h.id in s.calls
    && s.calls[h.id].startAt == Some(k)
    && s.calls[h.id].call == h.call
    && match h.who
       case None => AnonymousRead(h.call) && h.actor == ANONYMOUS
       case Some(cred) =>
         && h.actor == cred.Who()
         && CredentialOk(cfg, h.call, cred, h.at)
         && Permitted(cfg, h.call, cred)
         && AdmittedWith(s, s.calls[h.id], cred)
         && AuditedWith(s, h.id, s.calls[h.id], cred, h.auditsBefore)
  }

  ghost predicate StartsOk(cfg: Config, s: State) {
    forall k :: 0 <= k < |s.starts| ==> StartOk(cfg, s, k)
  }

  /** A store wrote the bytes its own call's handler returned, under its own call's key. */
  ghost predicate StoreOk(cfg: Config, s: State, m: nat)
    requires m < |s.storedBy| == |s.history|
  {
    var id := s.storedBy[m].id;
    && id in s.calls && id in s.results
    && s.history[m].body == s.results[id]
    && s.calls[id].phase.Done?
    && UsesResponseCache(cfg, s.calls[id].call)
    && s.calls[id].pos == Some(s.storedBy[m].pos)
    && s.calls[id].startAt.Some? && s.calls[id].startAt.value < |s.starts|
    && s.starts[s.calls[id].startAt.value].who.Some?
    && s.history[m].key == KeyOf(s.calls[id].call, s.starts[s.calls[id].startAt.value].who.value)
  }

  ghost predicate StoresOk(cfg: Config, s: State) {
    && |s.storedBy| == |s.history|
    && forall m :: 0 <= m < |s.storedBy| ==> StoreOk(cfg, s, m)
  }

  /** The call's own store is in the history, with this body. */
  predicate StoredFor(s: State, id: nat, body: bytes) {
    && |s.storedBy| == |s.history|
    && exists m :: 0 <= m < |s.storedBy| && s.storedBy[m].id == id && s.history[m].body == body
  }

  /** What a handler returned is about to be stored or is the call's response; on the cached path it was stored. */
  ghost predicate ResultOk(cfg: Config, s: State, id: nat)
    requires id in s.results
  {
    && id in s.calls
    && match s.calls[id].phase
       case Returned(_, body) => body == s.results[id]
       case Done(Response(body)) =>
         body == s.results[id] && (UsesResponseCache(cfg, s.calls[id].call) ==> StoredFor(s, id, body))
       case _ => false
  }

  ghost predicate ResultsOk(cfg: Config, s: State) {
    forall id :: id in s.results ==> ResultOk(cfg, s, id)
  }

  /** A hit served the latest stored bytes and its call was never admitted, audited or run. */
  ghost predicate HitOk(cfg: Config, s: State, n: nat)
    requires n < |s.hits|
  {
    var h := s.hits[n];
    && h.storesBefore <= |s.history|
    && HoldsLatest(s.history[..h.storesBefore], h.key, h.body)
    && h.id in s.calls
    && UsesResponseCache(cfg, s.calls[h.id].call)
    && CredentialOk(cfg, s.calls[h.id].call, h.cred, s.clock) && MayBeCached(cfg, s.calls[h.id].call, h.cred)
    && h.key == KeyOf(s.calls[h.id].call, h.cred)
    && s.calls[h.id].phase == Done(CachedResponse(h.body))
    && s.calls[h.id].pos.None? && s.calls[h.id].auditAt.None? && s.calls[h.id].startAt.None?
  }

  ghost predicate HitsOk(cfg: Config, s: State) {
    forall n :: 0 <= n < |s.hits| ==> HitOk(cfg, s, n)
  }

  /** Every audit record belongs to the call that points at it. */
  ghost predicate AuditsOk(s: State) {
    forall a :: 0 <= a < |s.audits| ==>
      s.audits[a].id in s.calls && s.calls[s.audits[a].id].auditAt == Some(a)
  }

  ghost predicate Inv(cfg: Config, s: State) {
    && CachesOk(cfg, s)
    && AdmissionsOk(cfg, s)
    && FlightsOk(cfg, s)
    && StartsOk(cfg, s)
    && StoresOk(cfg, s)
    && HitsOk(cfg, s)
    && AuditsOk(s)
    && ResultsOk(cfg, s)
  }
}
