/**
 The actor-token verifier. Signature checking, base64, JSON parsing and the
 permission table are parameters, so everything here holds for any of them.
 */
module ActorToken {
  import opened Common
  import opened Strings
  import Json
  import BodyCheck
  import RoutePath

  const EXPECTED_AUDIENCE := "nexus-edge-rpc"
  const SHELL_AUDIENCE := "nexus-edge-shell"
  const CLOCK_SKEW_SECS: int := 30
  const SIGNATURE_BYTES: nat := 64
  const I64_LIMIT: nat := 0x8000_0000_0000_0000

  const UPDATE_ORCHESTRATOR_ACTIONS: set<string> := {"update_assignment", "update_cancel", "update_rollback"}
  const FLEET_CATEGORIES: set<string> :=
    {"rules", "text_prompts", "visual_prompts", "detector_config", "delivery_settings", "alert_sinks", "live_view"}

  datatype InvalidReason =
    | MalformedJws | UnsupportedAlg | UnknownKeyId | BadSignature | MalformedClaims
    | WrongAudience | WrongCoreId | MethodMismatch | PathMismatch | NotYetValid | Expired
    | PermissionMismatch | SystemSubNotPermittedForMethod | Replayed

  datatype Header = Header(alg: string, kid: Option<string>)

  datatype Claims = Claims(
    aud: string, coreId: string, httpMethod: string, path: string,
    iat: nat, exp: nat, jti: string,
    sub: string, role: string, perm: Option<string>, orgId: string, actorOrgId: Option<string>)

  datatype ShellClaims = ShellClaims(
    aud: string, coreId: string, sessionId: string, iat: nat, exp: nat, jti: string,
    sub: string, role: string, orgId: string)

  datatype Actor = Actor(
    sub: string, role: string, perm: Option<string>, jti: string, orgId: string, actorOrgId: Option<string>)

  /** The verb and path of the request the token travelled with. */
  datatype Envelope = Envelope(verb: string, path: string)

  type SigningKey = bytes

  /** Everything the verifier takes from foreign code. */
  datatype Codec = Codec(
    base64: string -> Option<bytes>,
    header: bytes -> Option<Header>,
    claims: bytes -> Option<Claims>,
    shellClaims: bytes -> Option<ShellClaims>,
    signed: (SigningKey, string, bytes) -> bool,
    json: bytes -> Option<Json.Value>)

  datatype Verifier = Verifier(
    coreId: string,
    trustedKeys: map<string, SigningKey>,
    allowKidlessWhenSingle: bool,
    codec: Codec,
    permissions: (string, seq<string>) -> set<string>)

  // ----- compact serialization and signature -----

  lemma SingleKey<K, V>(m: map<K, V>)
    requires |m| == 1
    ensures exists k :: k in m && forall l :: l in m ==> l == k
  {
    var keys := m.Keys;
    assert |keys| == 1;
    var k :| k in keys;
    assert |keys - {k}| == 0;
    forall l | l in m ensures l == k {
      assert l !in keys - {k};
    }
  }

  function KeyFor(v: Verifier, h: Header): Option<SigningKey> {
    match h.kid
    case Some(kid) => if kid in v.trustedKeys then Some(v.trustedKeys[kid]) else None
    case None =>
      if v.allowKidlessWhenSingle && |v.trustedKeys| == 1 then
        SingleKey(v.trustedKeys);
        var kid :| kid in v.trustedKeys;
        Some(v.trustedKeys[kid])
      else None
  }

  /** Decode the three-part token and check its signature; yields the claims bytes. */
  function VerifiedClaimsBytes(v: Verifier, token: string): Result<bytes, InvalidReason> {
    var parts := Split(token, '.');
    if |parts| != 3 then Err(MalformedJws)
    else
      var header, claims, sig := v.codec.base64(parts[0]), v.codec.base64(parts[1]), v.codec.base64(parts[2]);
      if header.None? || claims.None? || sig.None? then Err(MalformedJws)
      else match v.codec.header(header.value)
        case None => Err(MalformedJws)
        case Some(h) =>
          if h.alg != "EdDSA" then Err(UnsupportedAlg)
          else match KeyFor(v, h)
            case None => Err(UnknownKeyId)
            case Some(key) =>
              if |sig.value| != SIGNATURE_BYTES then Err(BadSignature)
              else if !v.codec.signed(key, parts[0] + "." + parts[1], sig.value) then Err(BadSignature)
              else Ok(claims.value)
  }

  /** The parts of a compact token whose header names a trusted key that signed them. */
  ghost predicate SignedParts(v: Verifier, h: string, c: string, s: string, payload: bytes) {
    && '.' !in h && '.' !in c && '.' !in s
    && v.codec.base64(c) == Some(payload)
    && (exists raw, header, key ::
          && v.codec.base64(h) == Some(raw) && v.codec.header(raw) == Some(header)
          && header.alg == "EdDSA" && KeyFor(v, header) == Some(key)
          && SignatureFits(v, key, h + "." + c, v.codec.base64(s)))
  }

  predicate SignatureFits(v: Verifier, key: SigningKey, message: string, signature: Option<bytes>) {
    signature.Some? && |signature.value| == 64 && v.codec.signed(key, message, signature.value)
  }

  /** `payload` is the middle part of `token` and a trusted key signed the first two parts. */
  ghost predicate SignedPayload(v: Verifier, token: string, payload: bytes) {
    exists h, c, s :: token == h + "." + c + "." + s && SignedParts(v, h, c, s, payload)
  }

  /** Decoding succeeds exactly on three-part tokens signed by the key their header names. */
  lemma VerifiedIffSigned(v: Verifier, token: string, payload: bytes)
    ensures VerifiedClaimsBytes(v, token) == Ok(payload) <==> SignedPayload(v, token, payload)
  {
    if VerifiedClaimsBytes(v, token) == Ok(payload) {
      VerifiedIsSigned(v, token, payload);
    }
    if SignedPayload(v, token, payload) {
      SignedIsVerified(v, token, payload);
    }
  }

  lemma VerifiedIsSigned(v: Verifier, token: string, payload: bytes)
    requires VerifiedClaimsBytes(v, token) == Ok(payload)
    ensures SignedPayload(v, token, payload)
  {
    var parts := Split(token, '.');
    JoinSplit(token, '.');
    assert parts == [parts[0], parts[1], parts[2]];
    ThreeParts(parts[0], parts[1], parts[2]);
    hide Split, Join, KeyFor;
    assert SignedParts(v, parts[0], parts[1], parts[2], payload);
  }

  lemma SignedIsVerified(v: Verifier, token: string, payload: bytes)
    requires SignedPayload(v, token, payload)
    ensures VerifiedClaimsBytes(v, token) == Ok(payload)
  {
    var h, c, s :| token == h + "." + c + "." + s && SignedParts(v, h, c, s, payload);
    ThreeParts(h, c, s);
    SplitJoin([h, c, s], '.');
  }

  lemma ThreeParts(h: string, c: string, s: string)
    ensures Join([h, c, s], '.') == h + "." + c + "." + s
  {
    assert [h, c, s][1..] == [c, s] && [c, s][1..] == [s];
    assert Join([s], '.') == s;
    assert Join([c, s], '.') == c + ['.'] + s;
    assert Join([h, c, s], '.') == h + ['.'] + Join([c, s], '.');
  }

  /**
   The key a header selects: the one registered under its key id; without a key id
   only the single registered key, and only when that is allowed.
   */
  lemma SelectedKeyIff(v: Verifier, h: Header, key: SigningKey)
    ensures KeyFor(v, h) == Some(key) <==>
            if h.kid.Some? then h.kid.value in v.trustedKeys && v.trustedKeys[h.kid.value] == key
            else v.allowKidlessWhenSingle && |v.trustedKeys| == 1 && key in v.trustedKeys.Values
  {
    if h.kid.None? && v.allowKidlessWhenSingle && |v.trustedKeys| == 1 {
      SingleKey(v.trustedKeys);
    }
  }

  // ----- validity window -----

  /** The skewed validity window of a token, in whole seconds. */
  predicate InWindow(iat: nat, exp: nat, now: int) {
    iat < 9_223_372_036_854_775_808 && exp < 9_223_372_036_854_775_808 && iat - 30 <= now < exp + 30
  }

  function CheckWindow(iat: nat, exp: nat, now: int): (r: Option<InvalidReason>)
    ensures r.None? <==> InWindow(iat, exp, now)
  {
    if iat >= I64_LIMIT || exp >= I64_LIMIT then Some(MalformedClaims)
    else if iat > now + CLOCK_SKEW_SECS then Some(NotYetValid)
    else if exp <= now - CLOCK_SKEW_SECS then Some(Expired)
    else None
  }

  // ----- permissions -----

  predicate StartsWith(s: string, prefix: string) {
    prefix <= s
  }

  predicate IsSystemSubject(sub: string) {
    StartsWith(sub, "system:")
  }

  predicate AllowsSystemAction(a: Actor, env: Envelope) {
    if !IsSystemSubject(a.sub) then a.role != "system" && !StartsWith(a.role, "system:")
    else
      && env.verb == "POST"
      && (if a.sub == "system:update-orchestrator" then env.path in UPDATE_ORCHESTRATOR_ACTIONS
          else if a.sub == "system:api-gateway" then
            StartsWith(env.path, "/admin/fleet/") && env.path[|"/admin/fleet/"|..] in FLEET_CATEGORIES
          else false)
  }

  predicate IsSafeVerb(verb: string) {
    ToUpper(verb) in {"GET", "HEAD", "OPTIONS"}
  }

  /** The capabilities the edge's action table accepts for a request. */
  function RpcPermissions(v: Verifier, env: Envelope): set<string> {
    match RoutePath.PathParts(env.path)
    case None => {}
    case Some(parts) => v.permissions(ToUpper(env.verb), parts)
  }

  function Payload(v: Verifier, body: Option<bytes>): Option<Json.Value> {
    match body
    case None => None
    case Some(b) => v.codec.json(b)
  }

  predicate AllowsRpc(v: Verifier, a: Actor, env: Envelope, body: Option<bytes>, legacyAllowed: bool) {
    AllowsSystemAction(a, env) &&
    match a.perm
    case None => legacyAllowed && (IsSafeVerb(env.verb) || RpcPermissions(v, env) != {})
    case Some(p) => p in RpcPermissions(v, env) && BodyCheck.BodyAllowed(env.verb, env.path, p, Payload(v, body))
  }

  // ----- the permission decision, said without its own functions -----

  ghost predicate SafeRead(verb: string) {
    Uppercased(verb, "GET") || Uppercased(verb, "HEAD") || Uppercased(verb, "OPTIONS")
  }

  /** The action table's row for the request's verb and route holds `capability`. */
  ghost predicate Listed(v: Verifier, env: Envelope, capability: string) {
    exists parts, upper ::
      RoutePath.NamesRoute(env.path, parts) && Uppercased(env.verb, upper) && capability in v.permissions(upper, parts)
  }

  /**
   Service subjects are confined to their own actions; nobody else may carry a
   service role.
   */
  ghost predicate SystemRule(a: Actor, env: Envelope) {
    if "system:" <= a.sub then
      && env.verb == "POST"
      && ((a.sub == "system:update-orchestrator"
           && env.path in {"update_assignment", "update_cancel", "update_rollback"})
          || (a.sub == "system:api-gateway"
              && exists category :: env.path == "/admin/fleet/" + category
                   && category in {"rules", "text_prompts", "visual_prompts", "detector_config",
                                   "delivery_settings", "alert_sinks", "live_view"}))
    else a.role != "system" && !("system:" <= a.role)
  }

  /**
   With a signed capability, it stands in the action table's row and the body fits the
   route; without one, the request is a safe read or has a row at all.
   */
  ghost predicate PermissionRule(v: Verifier, a: Actor, env: Envelope, body: Option<bytes>) {
    match a.perm
    case None => SafeRead(env.verb) || exists capability :: Listed(v, env, capability)
    case Some(p) =>
      && Listed(v, env, p)
      && BodyCheck.BodyRule(env.verb, env.path, p, if body.Some? then v.codec.json(body.value) else None)
  }

  lemma ListedIff(v: Verifier, env: Envelope, capability: string)
    ensures capability in RpcPermissions(v, env) <==> Listed(v, env, capability)
  {
    hide RoutePath.PathParts, RoutePath.NamesRoute, Uppercased, ToUpper;
    forall parts ensures RoutePath.PathParts(env.path) == Some(parts) <==> RoutePath.NamesRoute(env.path, parts) {
      RoutePath.RouteIff(env.path, parts);
    }
    forall upper ensures ToUpper(env.verb) == upper <==> Uppercased(env.verb, upper) {
      UpperIff(env.verb, upper);
    }
  }

  lemma SystemRuleIff(a: Actor, env: Envelope)
    ensures AllowsSystemAction(a, env) <==> SystemRule(a, env)
  {
    var prefix := "/admin/fleet/";
    if prefix <= env.path {
      assert env.path == prefix + env.path[|prefix|..];
    }
    forall category | env.path == prefix + category ensures env.path[|prefix|..] == category {
    }
  }

  /** The decision allows exactly what the two rules allow. */
  lemma AllowsRpcIff(v: Verifier, a: Actor, env: Envelope, body: Option<bytes>)
    ensures AllowsRpc(v, a, env, body, true) <==> SystemRule(a, env) && PermissionRule(v, a, env, body)
  {
    SystemRuleIff(a, env);
    UpperIff(env.verb, "GET");
    UpperIff(env.verb, "HEAD");
    UpperIff(env.verb, "OPTIONS");
    forall capability ensures capability in RpcPermissions(v, env) <==> Listed(v, env, capability) {
      ListedIff(v, env, capability);
    }
    if a.perm.Some? {
      BodyCheck.BodyRuleIff(env.verb, env.path, a.perm.value, Payload(v, body));
    }
    hide AllowsSystemAction, SystemRule, RpcPermissions, Listed, Uppercased, ToUpper;
    hide BodyCheck.BodyAllowed, BodyCheck.BodyRule;
    assert RpcPermissions(v, env) != {} <==> exists capability :: Listed(v, env, capability) by {
      if capability :| Listed(v, env, capability) {
        assert capability in RpcPermissions(v, env);
      }
    }
  }

  /**
   The permission table and the body check see one route: requests whose paths
   normalize alike are granted the same capabilities and judged by the same body rule.
   */
  lemma RouteDecides(v: Verifier, verb: string, path1: string, path2: string, perm: string, body: Option<bytes>)
    requires RoutePath.PathParts(path1) == RoutePath.PathParts(path2)
    ensures RpcPermissions(v, Envelope(verb, path1)) == RpcPermissions(v, Envelope(verb, path2))
    ensures BodyCheck.BodyAllowed(verb, path1, perm, Payload(v, body))
       <==> BodyCheck.BodyAllowed(verb, path2, perm, Payload(v, body))
  {
  }

  /** A request may as well have named its route in normal form: the same capabilities, the same body rule. */
  lemma NormalFormDecides(v: Verifier, verb: string, path: string, perm: string, body: Option<bytes>)
    requires RoutePath.PathParts(path).Some?
    ensures var normal := Join(RoutePath.PathParts(path).value, '/');
            && RpcPermissions(v, Envelope(verb, normal)) == RpcPermissions(v, Envelope(verb, path))
            && (BodyCheck.BodyAllowed(verb, normal, perm, Payload(v, body))
                <==> BodyCheck.BodyAllowed(verb, path, perm, Payload(v, body)))
  {
    RoutePath.NormalizeIsIdempotent(path);
    RouteDecides(v, verb, Join(RoutePath.PathParts(path).value, '/'), path, perm, body);
  }

  // ----- verification -----

  function ActorOf(c: Claims): Actor {
    Actor(c.sub, c.role, c.perm, c.jti, c.orgId, c.actorOrgId)
  }

  function ShellActorOf(c: ShellClaims): Actor {
    Actor(c.sub, c.role, None, c.jti, c.orgId, None)
  }

  /** Every check on an RPC token except the replay cache, in the verifier's order. */
  function VerifyNoReplay(v: Verifier, token: string, env: Envelope, now: int): Result<Claims, InvalidReason> {
    match VerifiedClaimsBytes(v, token)
    case Err(e) => Err(e)
    case Ok(payload) =>
      match v.codec.claims(payload)
      case None => Err(MalformedClaims)
      case Some(c) =>
        if c.aud != EXPECTED_AUDIENCE then Err(WrongAudience)
        else if c.coreId != v.coreId then Err(WrongCoreId)
        else if c.httpMethod != env.verb then Err(MethodMismatch)
        else if c.path != env.path then Err(PathMismatch)
        else match CheckWindow(c.iat, c.exp, now)
          case Some(e) => Err(e)
          case None =>
            if c.perm.Some? && c.perm.value !in RpcPermissions(v, env) then Err(PermissionMismatch)
            else if !AllowsSystemAction(ActorOf(c), env) then Err(SystemSubNotPermittedForMethod)
            else Ok(c)
  }

  /** What an accepted RPC token proves about its request at time `now`. */
  ghost predicate Grants(v: Verifier, token: string, env: Envelope, now: int, c: Claims) {
    && (exists payload :: SignedPayload(v, token, payload) && v.codec.claims(payload) == Some(c))
    && c.aud == "nexus-edge-rpc"
    && c.coreId == v.coreId
    && c.httpMethod == env.verb && c.path == env.path
    && InWindow(c.iat, c.exp, now)
    && (c.perm.Some? ==> c.perm.value in RpcPermissions(v, env))
    && AllowsSystemAction(ActorOf(c), env)
  }

  /** A token is accepted exactly when it proves all of that. */
  lemma VerifyIffGrants(v: Verifier, token: string, env: Envelope, now: int, c: Claims)
    ensures VerifyNoReplay(v, token, env, now) == Ok(c) <==> Grants(v, token, env, now, c)
  {
    forall payload ensures VerifiedClaimsBytes(v, token) == Ok(payload) <==> SignedPayload(v, token, payload) {
      VerifiedIffSigned(v, token, payload);
    }
  }

  /** Every check on a shell token except the replay cache. */
  function VerifyShellNoReplay(v: Verifier, token: string, sessionId: string, now: int): Result<ShellClaims,
                               InvalidReason> {
    match VerifiedClaimsBytes(v, token)
    case Err(e) => Err(e)
    case Ok(payload) =>
      match v.codec.shellClaims(payload)
      case None => Err(MalformedClaims)
      case Some(c) =>
        if c.aud != SHELL_AUDIENCE then Err(WrongAudience)
        else if c.coreId != v.coreId then Err(WrongCoreId)
        else if c.sessionId != sessionId then Err(PathMismatch)
        else match CheckWindow(c.iat, c.exp, now)
          case Some(e) => Err(e)
          case None => Ok(c)
  }

  // ----- which reason a refused token gets -----

  predicate ThreePart(token: string, h: string, c: string, s: string) {
    token == h + "." + c + "." + s && '.' !in h && '.' !in c && '.' !in s
  }

  /** A token that is not three dot-free parts is malformed. */
  lemma NotThreeParts(v: Verifier, token: string)
    requires forall h, c, s :: !ThreePart(token, h, c, s)
    ensures VerifiedClaimsBytes(v, token) == Err(MalformedJws)
  {
    var parts := Split(token, '.');
    if |parts| == 3 {
      JoinSplit(token, '.');
      ThreeParts(parts[0], parts[1], parts[2]);
      assert parts == [parts[0], parts[1], parts[2]];
      assert ThreePart(token, parts[0], parts[1], parts[2]);
      assert false;
    }
  }

  /** A check and the reason given when it fails. */
  datatype Check = Check(holds: bool, reason: InvalidReason)

  /** The checks before `k` hold, and the `k`-th fails. */
  predicate FirstFailure(checks: seq<Check>, k: nat) {
    k < |checks| && !checks[k].holds && forall j :: 0 <= j < k ==> checks[j].holds
  }

  ghost function TokenChecks(v: Verifier, h: string, c: string, s: string): seq<Check> {
    var header := if v.codec.base64(h).Some? then v.codec.header(v.codec.base64(h).value) else None;
    var key := if header.Some? then KeyFor(v, header.value) else None;
    [ Check(v.codec.base64(h).Some? && v.codec.base64(c).Some? && v.codec.base64(s).Some?, MalformedJws),
      Check(header.Some?, MalformedJws),
      Check(header.Some? && header.value.alg == "EdDSA", UnsupportedAlg),
      Check(key.Some?, UnknownKeyId),
      Check(key.Some? && SignatureFits(v, key.value, h + "." + c, v.codec.base64(s)), BadSignature) ]
  }

  /** The reason is that of the first check on the token that fails. */
  lemma TokenRefusedFor(v: Verifier, token: string, h: string, c: string, s: string, k: nat)
    requires ThreePart(token, h, c, s) && FirstFailure(TokenChecks(v, h, c, s), k)
    ensures VerifiedClaimsBytes(v, token) == Err(TokenChecks(v, h, c, s)[k].reason)
  {
    ThreeParts(h, c, s);
    SplitJoin([h, c, s], '.');
    assert Split(token, '.') == [h, c, s];
    hide Split, Join, KeyFor;
    var checks := TokenChecks(v, h, c, s);
    assert k == 0 || checks[0].holds;
    assert k <= 1 || checks[1].holds;
    assert k <= 2 || checks[2].holds;
    assert k <= 3 || checks[3].holds;
  }

  ghost function ClaimChecks(v: Verifier, c: Claims, env: Envelope, now: int): seq<Check> {
    [ Check(c.aud == "nexus-edge-rpc", WrongAudience),
      Check(c.coreId == v.coreId, WrongCoreId),
      Check(c.httpMethod == env.verb, MethodMismatch),
      Check(c.path == env.path, PathMismatch),
      Check(c.iat < 9_223_372_036_854_775_808 && c.exp < 9_223_372_036_854_775_808, MalformedClaims),
      Check(c.iat - 30 <= now, NotYetValid),
      Check(now < c.exp + 30, Expired),
      Check(c.perm.Some? ==> Listed(v, env, c.perm.value), PermissionMismatch),
      Check(SystemRule(ActorOf(c), env), SystemSubNotPermittedForMethod) ]
  }

  /** Signed claims are accepted when every check holds, and else refused for the first that fails. */
  lemma ClaimsRefusedFor(v: Verifier, token: string, env: Envelope, now: int, payload: bytes, c: Claims)
    requires SignedPayload(v, token, payload) && v.codec.claims(payload) == Some(c)
    ensures (forall k :: 0 <= k < 9 ==> ClaimChecks(v, c, env, now)[k].holds) ==>
              VerifyNoReplay(v, token, env, now) == Ok(c)
    ensures forall k: nat :: FirstFailure(ClaimChecks(v, c, env, now), k) ==>
              VerifyNoReplay(v, token, env, now) == Err(ClaimChecks(v, c, env, now)[k].reason)
  {
    VerifiedIffSigned(v, token, payload);
    if c.perm.Some? {
      ListedIff(v, env, c.perm.value);
    }
    SystemRuleIff(ActorOf(c), env);
    hide VerifiedClaimsBytes, SignedPayload, RpcPermissions, Listed, AllowsSystemAction, SystemRule;
    var checks := ClaimChecks(v, c, env, now);
    if forall k :: 0 <= k < 9 ==> checks[k].holds {
      assert checks[0].holds && checks[1].holds && checks[2].holds && checks[3].holds && checks[4].holds;
      assert checks[5].holds && checks[6].holds && checks[7].holds && checks[8].holds;
    }
    forall k: nat | FirstFailure(checks, k)
      ensures VerifyNoReplay(v, token, env, now) == Err(checks[k].reason)
    {
      assert (k > 0 ==> checks[0].holds) && (k > 1 ==> checks[1].holds) && (k > 2 ==> checks[2].holds);
      assert (k > 3 ==> checks[3].holds) && (k > 4 ==> checks[4].holds) && (k > 5 ==> checks[5].holds);
      assert (k > 6 ==> checks[6].holds) && (k > 7 ==> checks[7].holds);
    }
  }

  /** What an accepted shell token proves about its session at time `now`. */
  ghost predicate ShellGrants(v: Verifier, token: string, sessionId: string, now: int, c: ShellClaims) {
    && (exists payload :: SignedPayload(v, token, payload) && v.codec.shellClaims(payload) == Some(c))
    && c.aud == "nexus-edge-shell" && c.coreId == v.coreId && c.sessionId == sessionId
    && InWindow(c.iat, c.exp, now)
  }

  /** A shell token is accepted exactly when it is signed, addressed to this core and session, and in its window. */
  lemma VerifyShellIffGrants(v: Verifier, token: string, sessionId: string, now: int, c: ShellClaims)
    ensures VerifyShellNoReplay(v, token, sessionId, now) == Ok(c) <==> ShellGrants(v, token, sessionId, now, c)
  {
    forall payload ensures VerifiedClaimsBytes(v, token) == Ok(payload) <==> SignedPayload(v, token, payload) {
      VerifiedIffSigned(v, token, payload);
    }
  }

  ghost function ShellChecks(v: Verifier, c: ShellClaims, sessionId: string, now: int): seq<Check> {
    [ Check(c.aud == "nexus-edge-shell", WrongAudience),
      Check(c.coreId == v.coreId, WrongCoreId),
      Check(c.sessionId == sessionId, PathMismatch),
      Check(c.iat < 9_223_372_036_854_775_808 && c.exp < 9_223_372_036_854_775_808, MalformedClaims),
      Check(c.iat - 30 <= now, NotYetValid),
      Check(now < c.exp + 30, Expired) ]
  }

  /** Signed shell claims are refused for the first check that fails. */
  lemma ShellRefusedFor(v: Verifier, token: string, sessionId: string, now: int, payload: bytes, c: ShellClaims, k: nat)
    requires SignedPayload(v, token, payload) && v.codec.shellClaims(payload) == Some(c)
    requires FirstFailure(ShellChecks(v, c, sessionId, now), k)
    ensures VerifyShellNoReplay(v, token, sessionId, now) == Err(ShellChecks(v, c, sessionId, now)[k].reason)
  {
    VerifiedIffSigned(v, token, payload);
    hide VerifiedClaimsBytes, SignedPayload;
    var checks := ShellChecks(v, c, sessionId, now);
    assert (k > 0 ==> checks[0].holds) && (k > 1 ==> checks[1].holds) && (k > 2 ==> checks[2].holds);
    assert (k > 3 ==> checks[3].holds) && (k > 4 ==> checks[4].holds);
  }
}
