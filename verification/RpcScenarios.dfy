/**
 Concrete runs of the admission protocol that show what its theorems need: each one
 is a run in which a hypothesis fails and so does the conclusion.
 */
module RpcScenarios {
  import opened Common
  import opened ActorToken
  import opened ReplayCache
  import opened ResponseCache
  import opened RpcProtocol
  import opened RpcSafety
  import opened RpcLockstep

  // ----- stretches of a run -----

  /** The call's token verifies at `now` and nothing stands between admission and the handler. */
  ghost predicate Ready(cfg: Config, call: Call, cred: Credential, now: int) {
    && call.Rpc? && call.token.Some? && cred.RpcCredential?
    && VerifyPhase(cfg, call, now) == Verified(cred) && cred.at == now
    && AllowsRpc(cfg.verifier, cred.Who(), call.env, call.body, true)
    && !IsSystemSubject(cred.Who().sub)
  }

  /** A run, the state it ends in, and that its calls came one at a time so far. */
  ghost predicate Reached(cfg: Config, run: seq<Event>, s: State, sequential: bool) {
    Exec(cfg, 0, run) == Some(s) && (sequential ==> Sequential(cfg, 0, run))
  }

  lemma Advance(cfg: Config, run: seq<Event>, s: State, sequential: bool, e: Event)
    returns (run': seq<Event>, s': State)
    requires Reached(cfg, run, s, sequential) && Enabled(cfg, s, e) && (sequential && e.Arrive? ==> AllDone(s))
    ensures run' == run + [e] && s' == Apply(cfg, s, e) && Reached(cfg, run', s', sequential)
  {
    hide Apply, Enabled, Exec, Sequential, AllDone;
    RunStep(cfg, 0, run, s, e);
    run', s' := run + [e], Apply(cfg, s, e);
  }

  function Opened(cfg: Config, call: Call, cred: Credential): Flight {
    Flight(call, if UsesResponseCache(cfg, call) then Missed(cred) else Verified(cred), None, None, None)
  }

  /** A call arrives, verifies and, where it looks, misses the response cache. */
  lemma Open(cfg: Config, run: seq<Event>, s: State, sequential: bool, id: nat, call: Call, cred: Credential)
    returns (run': seq<Event>, s': State)
    requires Reached(cfg, run, s, sequential) && id !in s.calls && Ready(cfg, call, cred, s.clock)
    requires sequential ==> AllDone(s)
    requires UsesResponseCache(cfg, call) ==> Lookup(s.responses, ResponseCapacity(cfg), KeyOf(call, cred)).None?
    ensures Reached(cfg, run', s', sequential)
    ensures s' == s.(calls := s.calls[id := Opened(cfg, call, cred)])
  {
    hide Exec, Sequential, VerifyPhase, Lookup, AllowsRpc, AllDone;
    run', s' := Advance(cfg, run, s, sequential, Arrive(id, call));
    run', s' := Advance(cfg, run', s', sequential, Verify(id));
    assert s'.calls == s.calls[id := Flight(call, Verified(cred), None, None, None)];
    if UsesResponseCache(cfg, call) {
      run', s' := Advance(cfg, run', s', sequential, Look(id));
      assert s'.calls == s.calls[id := Opened(cfg, call, cred)];
    }
  }

  /** An opened call is admitted. */
  lemma AdmitCall(cfg: Config, run: seq<Event>, s: State, sequential: bool, id: nat, call: Call, cred: Credential)
    returns (run': seq<Event>, s': State)
    requires Reached(cfg, run, s, sequential) && id in s.calls && s.calls[id] == Opened(cfg, call, cred) && call.Rpc?
    requires Admissible(s.replay, cfg.capacity, KeyOf(call, cred))
    ensures Reached(cfg, run', s', sequential)
    ensures s' == s.(replay := Insert(s.replay, cfg.capacity, KeyOf(call, cred)),
                     admitted := s.admitted + [KeyOf(call, cred)],
                     admissions := s.admissions + [Admission(id, KeyOf(call, cred), cred, s.clock)],
                     calls := s.calls[id := Flight(call, Admitted(cred), Some(|s.admissions|), None, None)])
  {
    hide Exec, Sequential, Insert, Admissible, KeyOf, AllDone;
    run', s' := Advance(cfg, run, s, sequential, Admit(id));
  }

  /** An opened call is refused as a replay. */
  lemma RefuseCall(cfg: Config, run: seq<Event>, s: State, sequential: bool, id: nat, call: Call, cred: Credential)
    returns (run': seq<Event>, s': State)
    requires Reached(cfg, run, s, sequential) && id in s.calls && s.calls[id] == Opened(cfg, call, cred) && call.Rpc?
    requires !Admissible(s.replay, cfg.capacity, KeyOf(call, cred))
    ensures Reached(cfg, run', s', sequential)
    ensures s' == s.(calls := s.calls[id := Flight(call, Done(Rejected(Replayed)), None, None, None)])
  {
    hide Exec, Sequential, Insert, Admissible, KeyOf, AllDone;
    run', s' := Advance(cfg, run, s, sequential, Admit(id));
  }

  /** An admitted call is cleared, its handler starts and returns `body`. */
  lemma RunCall(cfg: Config, run: seq<Event>, s: State, sequential: bool, id: nat, call: Call, cred: Credential,
                body: bytes)
    returns (run': seq<Event>, s': State)
    requires Reached(cfg, run, s, sequential) && id in s.calls && Ready(cfg, call, cred, cred.at)
    requires s.calls[id].call == call && s.calls[id].phase == Admitted(cred)
    ensures Reached(cfg, run', s', sequential)
    ensures s' == s.(audits := s.audits + [AuditRecord(id, call.name, call.env, cred.Who())],
                     starts := s.starts
                       + [HandlerStart(id, call, Some(cred), cred.Who(), s.clock, |s.audits| + 1)],
                     results := s.results[id := body],
                     calls := s.calls[id := Flight(call,
                       if UsesResponseCache(cfg, call) then Returned(cred, body) else Done(Response(body)),
                       s.calls[id].pos, Some(|s.audits|), Some(|s.starts|))])
  {
    hide Exec, Sequential, AllowsRpc, VerifyPhase, AllDone;
    run', s' := Advance(cfg, run, s, sequential, Clear(id));
    assert s'.calls[id].phase == Cleared(cred);
    run', s' := Advance(cfg, run', s', sequential, Start(id));
    assert s'.calls == s.calls[id := s'.calls[id]];
    run', s' := Advance(cfg, run', s', sequential, Finish(id, Some(body)));
    assert s'.calls == s.calls[id := s'.calls[id]];
  }

  /** The returned response is stored. */
  lemma KeepCall(cfg: Config, run: seq<Event>, s: State, sequential: bool, id: nat, cred: Credential, body: bytes,
                 pos: nat)
    returns (run': seq<Event>, s': State)
    requires Reached(cfg, run, s, sequential) && id in s.calls
    requires s.calls[id].phase == Returned(cred, body) && s.calls[id].pos == Some(pos)
    ensures Reached(cfg, run', s', sequential)
    ensures var key := KeyOf(s.calls[id].call, cred);
            s' == s.(responses := Put(s.responses, ResponseCapacity(cfg), key, body),
                     history := s.history + [Stored(key, body)],
                     storedBy := s.storedBy + [StoredBy(id, pos)],
                     calls := s.calls[id := s.calls[id].(phase := Done(Response(body)))])
  {
    hide Exec, Sequential, AllDone, Put, KeyOf;
    run', s' := Advance(cfg, run, s, sequential, Store(id));
  }

  // ----- a concrete verifier -----

  const CORE := "core"
  const REQUEST := Envelope("GET", "/status")

  function ClaimsFor(jti: string, iat: nat, exp: nat): Claims {
    Claims(EXPECTED_AUDIENCE, CORE, REQUEST.verb, REQUEST.path, iat, exp, jti, "user", "user", None, "org", None)
  }

  /** Token `a` and token `b` share an id; `b` is issued much later. Token `c` has an id of its own. */
  function TokenClaims(payload: bytes): Claims {
    if payload == [1] then ClaimsFor("j", 0, 10)
    else if payload == [2] then ClaimsFor("j", 1000, 1010)
    else ClaimsFor("k", 0, 10)
  }

  function DecodePart(part: string): Option<bytes> {
    if part == "a" then Some([1])
    else if part == "b" then Some([2])
    else if part == "c" then Some([3])
    else Some(seq(SIGNATURE_BYTES, _ => 0))
  }

  function DemoVerifier(): Verifier {
    Verifier(CORE, map["key" := [0]], true,
             Codec(DecodePart, _ => Some(Header("EdDSA", None)), p => Some(TokenClaims(p)), _ => None,
                   (_, _, _) => true, _ => None),
             (_, _) => {})
  }

  function DemoConfig(capacity: nat, responseCapacity: Option<nat>): Config {
    Config(DemoVerifier(), capacity, responseCapacity, {})
  }

  function Token(part: string): string {
    "h" + "." + part + "." + "s"
  }

  function DemoCall(part: string, requestId: Option<string>): Call {
    Rpc("status", REQUEST, Some(Token(part)), requestId, None)
  }

  function DemoCredential(part: string, now: int): Credential {
    RpcCredential(TokenClaims(DecodePart(part).value), now)
  }

  lemma DemoReady(cfg: Config, part: string, requestId: Option<string>, now: int)
    requires cfg.verifier == DemoVerifier() && part in {"a", "b", "c"}
    requires var c := TokenClaims(DecodePart(part).value); InWindow(c.iat, c.exp, now)
    ensures Ready(cfg, DemoCall(part, requestId), DemoCredential(part, now), now)
  {
    var c := TokenClaims(DecodePart(part).value);
    DemoVerified(cfg.verifier, part, now);
    DemoActor(cfg.verifier, c);
    hide VerifyNoReplay, AllowsRpc, DecodePart, Token, DemoVerifier, InWindow, TokenClaims;
  }

  lemma DemoVerified(v: Verifier, part: string, now: int)
    requires v == DemoVerifier() && part in {"a", "b", "c"}
    requires var c := TokenClaims(DecodePart(part).value); InWindow(c.iat, c.exp, now)
    ensures VerifyNoReplay(v, Token(part), REQUEST, now) == Ok(TokenClaims(DecodePart(part).value))
  {
    var c := TokenClaims(DecodePart(part).value);
    DemoSigned(v, part);
    DemoActor(v, c);
    assert v.codec.claims(DecodePart(part).value) == Some(c);
    hide SignedPayload, InWindow, AllowsSystemAction, DecodePart, Token, RpcPermissions;
    assert Grants(v, Token(part), REQUEST, now, c);
    VerifyIffGrants(v, Token(part), REQUEST, now, c);
  }

  /** The demo actor passes the system rule, and its safe request the table and body rules. */
  lemma DemoActor(v: Verifier, c: Claims)
    requires c.sub == "user" && c.role == "user" && c.perm.None?
    ensures AllowsSystemAction(ActorOf(c), REQUEST) && AllowsRpc(v, ActorOf(c), REQUEST, None, true)
    ensures !IsSystemSubject(c.sub)
  {
    assert "user"[0] != "system:"[0];
    SafeGet();
  }

  lemma SafeGet()
    ensures IsSafeVerb("GET")
  {
    assert Strings.ToUpper("GET") == "GET";
  }

  lemma DemoSigned(v: Verifier, part: string)
    requires v == DemoVerifier() && part in {"a", "b", "c"}
    ensures SignedPayload(v, Token(part), DecodePart(part).value)
  {
    var header := Header("EdDSA", None);
    assert |v.trustedKeys| == 1 && v.trustedKeys["key"] == [0];
    SelectedKeyIff(v, header, [0]);
    assert v.codec.header(DecodePart("h").value) == Some(header);
    assert SignatureFits(v, [0], "h" + "." + part, DecodePart("s"));
    assert SignedParts(v, "h", part, "s", DecodePart(part).value);
  }

  // ----- the runs -----

  lemma AdmittedIsRemembered(c: Replay, capacity: nat, key: string)
    requires capacity > 0
    ensures !Admissible(Insert(c, capacity, key), capacity, key)
  {
  }

  /**
   A success without a request id: the replay cache remembers it, no cache serves it,
   and its retry is refused.
   */
  lemma BareSuccessIsRefusedLater() returns (cfg: Config, run: seq<Event>)
    ensures EqualCapacities(cfg) && Exec(cfg, 0, run).Some? && Sequential(cfg, 0, run)
    ensures var s := Exec(cfg, 0, run).value;
            && Remembered(cfg, s, 0, 0) && Succeeded(s, 0, [7]) && s.responses.bodies == map[]
            && s.starts[0].id == 1 && 2 in s.calls && s.calls[2].call == s.starts[0].call
            && s.calls[2].phase == Done(Rejected(Replayed))
  {
    cfg := DemoConfig(1, Some(1));
    DemoReady(cfg, "a", None, 0);
    run := BareRun(cfg, DemoCall("a", None), DemoCredential("a", 0));
  }

  lemma BareRun(cfg: Config, call: Call, cred: Credential) returns (run: seq<Event>)
    requires EqualCapacities(cfg) && Ready(cfg, call, cred, 0) && call.requestId.None?
    ensures Exec(cfg, 0, run).Some? && Sequential(cfg, 0, run)
    ensures var s := Exec(cfg, 0, run).value;
            && Remembered(cfg, s, 0, 0) && Succeeded(s, 0, [7]) && s.responses.bodies == map[]
            && s.starts[0].id == 1 && 2 in s.calls && s.calls[2].call == s.starts[0].call
            && s.calls[2].phase == Done(Rejected(Replayed))
  {
    hide VerifyPhase, AllowsRpc, Exec, Sequential, KeyOf, Insert, Admissible;
    run := [];
    var s := Initial(0);
    StartOfRun(cfg);
    run, s := Open(cfg, run, s, true, 1, call, cred);
    EmptyAdmits(cfg.capacity, KeyOf(call, cred));
    AdmittedIsRemembered(s.replay, cfg.capacity, KeyOf(call, cred));
    run, s := AdmitCall(cfg, run, s, true, 1, call, cred);
    run, s := RunCall(cfg, run, s, true, 1, call, cred, [7]);
    run, s := Open(cfg, run, s, true, 2, call, cred);
    run, s := RefuseCall(cfg, run, s, true, 2, call, cred);
  }

  lemma StartOfRun(cfg: Config)
    ensures Reached(cfg, [], Initial(0), true) && AllDone(Initial(0))
  {
  }

  lemma EmptyAdmits(capacity: nat, key: string)
    ensures Admissible(EMPTY_REPLAY, capacity, key)
  {
  }

  /**
   Two calls with one token overlap at capacity one and store in reverse order: the
   second succeeds, the replay cache remembers it, and its retry is refused.
   */
  lemma OverlapLosesSuccess() returns (cfg: Config, run: seq<Event>)
    ensures EqualCapacities(cfg) && Exec(cfg, 0, run).Some?
    ensures var s := Exec(cfg, 0, run).value;
            && Remembered(cfg, s, 1, 1) && Succeeded(s, 1, [8])
            && s.starts[1].call.Rpc? && s.starts[1].call.requestId.Some?
            && 3 in s.calls && s.calls[3].call == s.starts[1].call
            && s.calls[3].phase == Done(Rejected(Replayed))
  {
    cfg := DemoConfig(1, Some(1));
    DemoReady(cfg, "a", Some("1"), 0);
    DemoReady(cfg, "a", Some("2"), 0);
    DemoKeysDiffer();
    hide Ready, Exec, Sequential, KeyOf, DemoVerifier, DemoCredential;
    run := OverlapRun(cfg, DemoCall("a", Some("1")), DemoCall("a", Some("2")), DemoCredential("a", 0));
  }

  lemma DemoKeysDiffer()
    ensures var cred := DemoCredential("a", 0);
            KeyOf(DemoCall("a", Some("1")), cred) != KeyOf(DemoCall("a", Some("2")), cred)
  {
    var one, two := "j" + "|" + "1", "j" + "|" + "2";
    assert one[2] != two[2];
  }

  lemma OverlapRun(cfg: Config, call1: Call, call2: Call, cred: Credential) returns (run: seq<Event>)
    requires EqualCapacities(cfg) && cfg.capacity == 1 && Ready(cfg, call1, cred, 0) && Ready(cfg, call2, cred, 0)
    requires call1.requestId.Some? && call2.requestId.Some? && KeyOf(call1, cred) != KeyOf(call2, cred)
    ensures Exec(cfg, 0, run).Some?
    ensures var s := Exec(cfg, 0, run).value;
            && Remembered(cfg, s, 1, 1) && Succeeded(s, 1, [8]) && s.starts[1].call == call2
            && 3 in s.calls && s.calls[3].call == call2 && s.calls[3].phase == Done(Rejected(Replayed))
  {
    hide VerifyPhase, AllowsRpc, Exec, Sequential, KeyOf, Insert, Admissible, Put, Lookup;
    var key1, key2 := KeyOf(call1, cred), KeyOf(call2, cred);
    run := [];
    var s := Initial(0);
    StartOfRun(cfg);
    EmptyAdmits(1, key1);
    NothingCached(1, key1);
    NothingCached(1, key2);
    OtherIsAdmitted(key1, key2);
    AdmittedIsRemembered(Insert(EMPTY_REPLAY, 1, key1), 1, key2);
    run, s := Open(cfg, run, s, false, 1, call1, cred);
    run, s := AdmitCall(cfg, run, s, false, 1, call1, cred);
    run, s := Open(cfg, run, s, false, 2, call2, cred);
    run, s := AdmitCall(cfg, run, s, false, 2, call2, cred);
    run, s := BothServed(cfg, run, s, call1, call2, cred);
    SecondIsEvicted(key1, [7], key2, [8]);
    run, s := Open(cfg, run, s, false, 3, call2, cred);
    run, s := RefuseCall(cfg, run, s, false, 3, call2, cred);
  }

  /** Both handlers run; the second call stores first. */
  lemma BothServed(cfg: Config, run: seq<Event>, s: State, call1: Call, call2: Call, cred: Credential)
    returns (run': seq<Event>, s': State)
    requires Reached(cfg, run, s, false) && EqualCapacities(cfg) && cfg.capacity == 1
    requires Ready(cfg, call1, cred, 0) && Ready(cfg, call2, cred, 0) && call1.requestId.Some? && call2.requestId.Some?
    requires s.starts == [] && s.responses == EMPTY_RESPONSES && s.clock == 0
    requires s.calls == map[1 := Flight(call1, Admitted(cred), Some(0), None, None),
                            2 := Flight(call2, Admitted(cred), Some(1), None, None)]
    ensures Reached(cfg, run', s', false)
    ensures s'.replay == s.replay && s'.admissions == s.admissions && s'.clock == 0
    ensures s'.responses == Put(Put(EMPTY_RESPONSES, 1, KeyOf(call2, cred), [8]), 1, KeyOf(call1, cred), [7])
    ensures |s'.starts| == 2 && s'.starts[1].id == 2 && s'.starts[1].call == call2 && s'.starts[1].who == Some(cred)
    ensures s'.calls.Keys == {1, 2} && s'.calls[2].phase == Done(Response([8]))
  {
    hide VerifyPhase, AllowsRpc, Exec, Sequential, KeyOf, Put;
    run', s' := RunCall(cfg, run, s, false, 1, call1, cred, [7]);
    run', s' := RunCall(cfg, run', s', false, 2, call2, cred, [8]);
    run', s' := KeepCall(cfg, run', s', false, 2, cred, [8], 1);
    run', s' := KeepCall(cfg, run', s', false, 1, cred, [7], 0);
  }

  lemma NothingCached(capacity: nat, key: string)
    ensures Lookup(EMPTY_RESPONSES, capacity, key).None?
  {
  }

  lemma OtherIsAdmitted(key1: string, key2: string)
    requires key1 != key2
    ensures Admissible(Insert(EMPTY_REPLAY, 1, key1), 1, key2)
  {
  }

  lemma SecondIsEvicted(key1: string, body1: bytes, key2: string, body2: bytes)
    requires key1 != key2
    ensures Lookup(Put(Put(EMPTY_RESPONSES, 1, key2, body2), 1, key1, body1), 1, key2).None?
  {
    EvictsOther(EMPTY_RESPONSES, key1, body1, key2, body2);
  }

  /** One call from arrival to its response, or up to its store when it uses the response cache. */
  lemma Serve(cfg: Config, run: seq<Event>, s: State, id: nat, call: Call, cred: Credential, body: bytes)
    returns (run': seq<Event>, s': State)
    requires Reached(cfg, run, s, true) && AllDone(s) && id !in s.calls && Ready(cfg, call, cred, s.clock)
    requires Admissible(s.replay, cfg.capacity, KeyOf(call, cred))
    requires UsesResponseCache(cfg, call) ==> Lookup(s.responses, ResponseCapacity(cfg), KeyOf(call, cred)).None?
    ensures Reached(cfg, run', s', true) && AllDone(s')
    ensures s'.clock == s.clock && s'.calls.Keys == s.calls.Keys + {id}
    ensures s'.replay == Insert(s.replay, cfg.capacity, KeyOf(call, cred))
    ensures s'.admissions == s.admissions + [Admission(id, KeyOf(call, cred), cred, s.clock)]
    ensures s'.starts == s.starts + [HandlerStart(id, call, Some(cred), cred.Who(), s.clock, |s.audits| + 1)]
    ensures s'.responses == if UsesResponseCache(cfg, call)
                            then Put(s.responses, ResponseCapacity(cfg), KeyOf(call, cred), body) else s.responses
  {
    hide VerifyPhase, AllowsRpc, Exec, Sequential, KeyOf, Insert, Admissible, Put, Lookup;
    run', s' := Open(cfg, run, s, true, id, call, cred);
    run', s' := AdmitCall(cfg, run', s', true, id, call, cred);
    run', s' := RunCall(cfg, run', s', true, id, call, cred, body);
    if UsesResponseCache(cfg, call) {
      run', s' := KeepCall(cfg, run', s', true, id, cred, body, |s.admissions|);
    }
  }

  /**
   One token id on two tokens with different times: lifetime, delay and rate bounds
   hold, and one (token id, request id) pair starts the handler twice.
   */
  lemma SharedTokenIdRunsTwice() returns (cfg: Config, run: seq<Event>)
    ensures cfg.capacity > 0 && Exec(cfg, 0, run).Some? && Sequential(cfg, 0, run)
    ensures var s := Exec(cfg, 0, run).value;
            && BoundedLifetime(s, 10) && PromptAdmission(s, 0)
            && BoundedRate(s, cfg.capacity, 10 + 2 * CLOCK_SKEW_SECS + 0)
            && TokenStart(s, 0) && TokenStart(s, 2)
            && s.starts[0].who.value.Jti() == s.starts[2].who.value.Jti()
            && s.starts[0].call.Rpc? && s.starts[2].call.Rpc?
            && s.starts[0].call.requestId == s.starts[2].call.requestId
            && !TokenIdsUnique(s)
  {
    cfg := DemoConfig(1, None);
    DemoReady(cfg, "a", None, 0);
    DemoReady(cfg, "c", None, 0);
    DemoReady(cfg, "b", None, 1000);
    DemoTimes();
    hide Ready, Exec, Sequential, DemoConfig, DemoCredential, DemoCall, BoundedLifetime, PromptAdmission, BoundedRate;
    hide TokenIdsUnique;
    CapacityIsOne();
    BareKeys(DemoCall("a", None), DemoCredential("a", 0), DemoCall("c", None), DemoCredential("c", 0),
             DemoCall("b", None), DemoCredential("b", 1000));
    run := ThreeCallsRun(cfg, DemoCall("a", None), DemoCredential("a", 0), DemoCall("c", None), DemoCredential("c", 0),
                         DemoCall("b", None), DemoCredential("b", 1000), 1000);
    TimesMeetBounds(Exec(cfg, 0, run).value, DemoCredential("a", 0), DemoCredential("c", 0), DemoCredential("b", 1000));
  }

  lemma CapacityIsOne()
    ensures DemoConfig(1, None).capacity == 1 && DemoCall("a", None).Rpc? && DemoCall("b", None).Rpc?
    ensures DemoCall("a", None).requestId == DemoCall("b", None).requestId
  {
  }

  lemma TimesMeetBounds(s: State, cred1: Credential, cred2: Credential, cred3: Credential)
    requires |s.admissions| == 3
    requires s.admissions[0].cred == cred1 && s.admissions[1].cred == cred2 && s.admissions[2].cred == cred3
    requires s.admissions[0].at == 0 && s.admissions[1].at == 0 && s.admissions[2].at == 1000
    requires cred1.at == 0 && cred2.at == 0 && cred3.at == 1000
    requires cred1.Jti() == cred3.Jti() && cred1.Iat() == cred2.Iat() == 0 && cred1.Exp() == cred2.Exp() == 10
    requires cred3.Iat() == 1000 && cred3.Exp() == 1010
    ensures BoundedLifetime(s, 10) && PromptAdmission(s, 0) && BoundedRate(s, 1, 70) && !TokenIdsUnique(s)
  {
    hide Credential.Jti, Credential.Iat, Credential.Exp;
  }

  lemma DemoTimes()
    ensures var a, b, c := DemoCredential("a", 0), DemoCredential("b", 1000), DemoCredential("c", 0);
            && a.Jti() == b.Jti() == "j" && c.Jti() == "k"
            && a.Iat() == c.Iat() == 0 && a.Exp() == c.Exp() == 10 && b.Iat() == 1000 && b.Exp() == 1010
            && a.at == 0 && c.at == 0 && b.at == 1000
    ensures "j" != "k"
  {
    assert "j"[0] != "k"[0];
  }

  /** Three calls one after the other at capacity one; the third has the first one's key. */
  lemma ThreeCallsRun(cfg: Config, call1: Call, cred1: Credential, call2: Call, cred2: Credential,
                      call3: Call, cred3: Credential, later: nat)
    returns (run: seq<Event>)
    requires cfg.capacity == 1 && cfg.responseCapacity.None?
    requires Ready(cfg, call1, cred1, 0) && Ready(cfg, call2, cred2, 0) && Ready(cfg, call3, cred3, later)
    requires KeyOf(call1, cred1) == KeyOf(call3, cred3) && KeyOf(call1, cred1) != KeyOf(call2, cred2)
    ensures Exec(cfg, 0, run).Some? && Sequential(cfg, 0, run)
    ensures var s := Exec(cfg, 0, run).value;
            && |s.admissions| == 3
            && s.admissions[0].cred == cred1 && s.admissions[1].cred == cred2 && s.admissions[2].cred == cred3
            && s.admissions[0].at == 0 && s.admissions[1].at == 0 && s.admissions[2].at == later
            && |s.starts| == 3
            && s.starts[0].who == Some(cred1) && s.starts[0].call == call1
            && s.starts[2].who == Some(cred3) && s.starts[2].call == call3
  {
    hide VerifyPhase, AllowsRpc, Exec, Sequential, KeyOf, Insert, Admissible, Lookup;
    run := [];
    var s := Initial(0);
    StartOfRun(cfg);
    var key1, key2 := KeyOf(call1, cred1), KeyOf(call2, cred2);
    EmptyAdmits(1, key1);
    OtherIsAdmitted(key1, key2);
    EvictedIsAdmitted(key1, key2);
    run, s := Serve(cfg, run, s, 1, call1, cred1, []);
    run, s := Serve(cfg, run, s, 2, call2, cred2, []);
    run, s := Advance(cfg, run, s, true, Tick(later));
    run, s := Serve(cfg, run, s, 3, call3, cred3, []);
  }

  lemma BareKeys(call1: Call, cred1: Credential, call2: Call, cred2: Credential, call3: Call, cred3: Credential)
    requires call1.Rpc? && call2.Rpc? && call3.Rpc?
    requires call1.requestId.None? && call2.requestId.None? && call3.requestId.None?
    requires cred1.Jti() == cred3.Jti() && cred1.Jti() != cred2.Jti()
    ensures KeyOf(call1, cred1) == KeyOf(call3, cred3) && KeyOf(call1, cred1) != KeyOf(call2, cred2)
  {
  }

  lemma EvictedIsAdmitted(key1: string, key2: string)
    requires key1 != key2
    ensures Admissible(Insert(Insert(EMPTY_REPLAY, 1, key1), 1, key2), 1, key1)
  {
  }

  /**
   A retry under a fresh token id is a new call: with room to spare in both caches,
   one request id starts the handler twice.
   */
  lemma FreshTokenIdRunsAgain() returns (cfg: Config, run: seq<Event>)
    ensures EqualCapacities(cfg) && Exec(cfg, 0, run).Some? && Sequential(cfg, 0, run)
    ensures var s := Exec(cfg, 0, run).value;
            && |s.admissions| < cfg.capacity
            && TokenStart(s, 0) && TokenStart(s, 1)
            && s.starts[0].call.Rpc? && s.starts[1].call.Rpc?
            && s.starts[0].call.requestId.Some? && s.starts[0].call.requestId == s.starts[1].call.requestId
            && s.starts[0].who.value.Jti() != s.starts[1].who.value.Jti()
  {
    cfg := DemoConfig(8, Some(8));
    DemoReady(cfg, "a", Some("r"), 0);
    DemoReady(cfg, "c", Some("r"), 0);
    DemoTimes();
    hide Ready, Exec, Sequential, DemoConfig, DemoCredential;
    run := FreshIdRun(cfg, DemoCall("a", Some("r")), DemoCredential("a", 0),
                      DemoCall("c", Some("r")), DemoCredential("c", 0));
  }

  lemma FreshIdRun(cfg: Config, call1: Call, cred1: Credential, call2: Call, cred2: Credential)
    returns (run: seq<Event>)
    requires cfg.capacity == 8 && EqualCapacities(cfg) && Ready(cfg, call1, cred1, 0) && Ready(cfg, call2, cred2, 0)
    requires call1.requestId.Some? && call2.requestId.Some?
    requires |cred1.Jti()| == |cred2.Jti()| && cred1.Jti() != cred2.Jti()
    ensures Exec(cfg, 0, run).Some? && Sequential(cfg, 0, run)
    ensures var s := Exec(cfg, 0, run).value;
            && |s.admissions| == 2 && |s.starts| == 2
            && s.starts[0].who == Some(cred1) && s.starts[0].call == call1
            && s.starts[1].who == Some(cred2) && s.starts[1].call == call2
  {
    hide VerifyPhase, AllowsRpc, Exec, Sequential, KeyOf, Insert, Admissible, Lookup, Put;
    run := [];
    var s := Initial(0);
    StartOfRun(cfg);
    var key1, key2 := KeyOf(call1, cred1), KeyOf(call2, cred2);
    KeysDiffer(call1, cred1, call2, cred2);
    EmptyAdmits(8, key1);
    NothingCached(8, key1);
    OtherHasRoom(key1, key2, []);
    run, s := Serve(cfg, run, s, 1, call1, cred1, []);
    run, s := Serve(cfg, run, s, 2, call2, cred2, []);
  }

  lemma KeysDiffer(call1: Call, cred1: Credential, call2: Call, cred2: Credential)
    requires call1.Rpc? && call2.Rpc? && call1.requestId.Some? && call2.requestId.Some?
    requires |cred1.Jti()| == |cred2.Jti()| && cred1.Jti() != cred2.Jti()
    ensures KeyOf(call1, cred1) != KeyOf(call2, cred2)
  {
    assert KeyOf(call1, cred1)[..|cred1.Jti()|] == cred1.Jti();
    assert KeyOf(call2, cred2)[..|cred2.Jti()|] == cred2.Jti();
  }

  lemma OtherHasRoom(key1: string, key2: string, body: bytes)
    requires key1 != key2
    ensures Admissible(Insert(EMPTY_REPLAY, 8, key1), 8, key2)
    ensures Lookup(Put(EMPTY_RESPONSES, 8, key1, body), 8, key2).None?
  {
  }

  /**
   Without the rate bound: one token, three calls at once at capacity one, and the
   pair of the first starts the handler again after the second has evicted it.
   */
  lemma EvictionRunsTwice() returns (cfg: Config, run: seq<Event>)
    ensures cfg.capacity > 0 && Exec(cfg, 0, run).Some? && Sequential(cfg, 0, run)
    ensures var s := Exec(cfg, 0, run).value;
            && BoundedLifetime(s, 10) && PromptAdmission(s, 0) && TokenIdsUnique(s)
            && TokenStart(s, 0) && TokenStart(s, 2)
            && s.starts[0].who.value.Jti() == s.starts[2].who.value.Jti()
            && s.starts[0].call.Rpc? && s.starts[2].call.Rpc?
            && s.starts[0].call.requestId == s.starts[2].call.requestId
  {
    cfg := DemoConfig(1, None);
    DemoReady(cfg, "a", Some("1"), 0);
    DemoReady(cfg, "a", Some("2"), 0);
    DemoKeysDiffer();
    DemoTimes();
    hide Ready, Exec, Sequential, KeyOf, DemoVerifier, DemoCredential;
    hide BoundedLifetime, PromptAdmission, TokenIdsUnique;
    run := EvictionRun(cfg, DemoCall("a", Some("1")), DemoCall("a", Some("2")), DemoCredential("a", 0));
  }

  lemma EvictionRun(cfg: Config, first: Call, second: Call, cred: Credential) returns (run: seq<Event>)
    requires cfg.capacity == 1 && cfg.responseCapacity.None?
    requires Ready(cfg, first, cred, 0) && Ready(cfg, second, cred, 0) && KeyOf(first, cred) != KeyOf(second, cred)
    requires cred.Iat() == 0 && cred.Exp() == 10
    ensures Exec(cfg, 0, run).Some? && Sequential(cfg, 0, run)
    ensures var s := Exec(cfg, 0, run).value;
            && BoundedLifetime(s, 10) && PromptAdmission(s, 0) && TokenIdsUnique(s)
            && |s.starts| == 3 && s.starts[0].call == s.starts[2].call == first
            && s.starts[0].who == s.starts[2].who == Some(cred)
  {
    hide KeyOf, Exec, Sequential, BoundedLifetime, PromptAdmission, TokenIdsUnique, AllowsRpc, VerifyPhase;
    run := ThreeCallsRun(cfg, first, cred, second, cred, first, cred, 0);
    var s := Exec(cfg, 0, run).value;
    OneTokenMeetsBounds(s, cred);
  }

  lemma OneTokenMeetsBounds(s: State, cred: Credential)
    requires forall i :: 0 <= i < |s.admissions| ==> s.admissions[i].cred == cred && s.admissions[i].at == 0
    requires cred.at == 0 && cred.Iat() == 0 && cred.Exp() == 10
    ensures BoundedLifetime(s, 10) && PromptAdmission(s, 0) && TokenIdsUnique(s)
  {
    hide Credential.Jti, Credential.Iat, Credential.Exp;
  }
}
