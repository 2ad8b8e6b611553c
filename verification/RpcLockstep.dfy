/**
 When calls are dispatched one at a time and both caches have the same non-zero
 capacity, the response cache never forgets a success the replay cache remembers.
 */
module RpcLockstep {
  import opened Common
  import opened ActorToken
  import opened ReplayCache
  import opened ResponseCache
  import opened RpcProtocol
  import opened RpcSafety

  ghost predicate AllDone(s: State) {
    forall id :: id in s.calls ==> s.calls[id].phase.Done?
  }

  /** A run in which a call arrives only when every earlier call has finished. */
  ghost predicate Sequential(cfg: Config, t0: int, run: seq<Event>) {
    run == [] ||
    var init, e := run[..|run| - 1], run[|run| - 1];
    && Sequential(cfg, t0, init)
    && (e.Arrive? && Exec(cfg, t0, init).Some? ==> AllDone(Exec(cfg, t0, init).value))
  }

  /** Appending an enabled step to a run, one call at a time. */
  lemma RunStep(cfg: Config, t0: int, run: seq<Event>, s: State, e: Event)
    requires Exec(cfg, t0, run) == Some(s) && Enabled(cfg, s, e)
    ensures Exec(cfg, t0, run + [e]) == Some(Apply(cfg, s, e))
    ensures Sequential(cfg, t0, run) && (e.Arrive? ==> AllDone(s)) ==> Sequential(cfg, t0, run + [e])
  {
    hide Apply, Enabled, AllDone;
    var longer := run + [e];
    assert longer[..|longer| - 1] == run;
  }

  ghost predicate EqualCapacities(cfg: Config) {
    cfg.capacity > 0 && cfg.responseCapacity == Some(cfg.capacity)
  }

  function StoredKeys(history: seq<Stored>): (keys: seq<string>)
    ensures |keys| == |history|
    ensures forall m :: 0 <= m < |keys| ==> keys[m] == history[m].key
  {
    seq(|history|, m requires 0 <= m < |history| => history[m].key)
  }

  /** The credential of a call that missed the response cache and has not stored yet. */
  function MissedCredential(cfg: Config, f: Flight): Option<Credential> {
    if !UsesResponseCache(cfg, f.call) then None
    else match f.phase
      case Missed(c) => Some(c)
      case Admitted(c) => Some(c)
      case Cleared(c) => Some(c)
      case Running(who) => who
      case Returned(c, _) => Some(c)
      case _ => None
  }

  ghost predicate StoredBelow(s: State, p: nat) {
    forall m :: 0 <= m < |s.storedBy| ==> s.storedBy[m].pos < p
  }

  /** The one call in flight is the latest admission, and its key is not cached yet. */
  ghost predicate ActiveOk(cfg: Config, s: State, id: nat)
    requires id in s.calls
  {
    var f := s.calls[id];
    !f.phase.Done? ==>
    && (f.pos.Some? ==> f.pos.value + 1 == |s.admissions| && StoredBelow(s, f.pos.value))
    && (MissedCredential(cfg, f).Some? ==> KeyOf(f.call, MissedCredential(cfg, f).value) !in s.responses.bodies)
  }

  ghost predicate OneActive(s: State) {
    forall i, j :: i in s.calls && j in s.calls && !s.calls[i].phase.Done? && !s.calls[j].phase.Done? ==> i == j
  }

  ghost predicate StoresIncrease(s: State) {
    && StoredBelow(s, |s.admissions|)
    && forall m, n :: 0 <= m < n < |s.storedBy| ==> s.storedBy[m].pos < s.storedBy[n].pos
  }

  /** No store ever replaced another: each one took a slot of its own. */
  ghost predicate AllFresh(cfg: Config, s: State) {
    FreshKeys(ResponseCapacity(cfg), s.history) == StoredKeys(s.history)
  }

  ghost predicate SeqInv(cfg: Config, s: State) {
    && OneActive(s)
    && StoresIncrease(s)
    && AllFresh(cfg, s)
    && forall id :: id in s.calls ==> ActiveOk(cfg, s, id)
  }

  lemma ActiveEarly(cfg: Config, s: State, e: Event)
    requires EqualCapacities(cfg) && Enabled(cfg, s, e) && Early(e)
    requires FlightOk(cfg, s, e.id) && ActiveOk(cfg, s, e.id) && StoredBelow(s, |s.admissions|)
    ensures ActiveOk(cfg, Apply(cfg, s, e), e.id)
  {
  }

  lemma ActiveLate(cfg: Config, s: State, e: Event)
    requires EqualCapacities(cfg) && Enabled(cfg, s, e) && !e.Tick? && !e.Arrive? && !Early(e)
    requires FlightOk(cfg, s, e.id) && ActiveOk(cfg, s, e.id)
    ensures ActiveOk(cfg, Apply(cfg, s, e), e.id)
  {
    hide CredentialOk, Permitted, AllowsRpc, Put;
  }

  lemma FreshStep(cfg: Config, s: State, e: Event)
    requires EqualCapacities(cfg) && Enabled(cfg, s, e) && AllFresh(cfg, s)
    requires s.responses == PutAll(ResponseCapacity(cfg), s.history)
    requires e.Store? ==> FlightOk(cfg, s, e.id) && ActiveOk(cfg, s, e.id)
    ensures AllFresh(cfg, Apply(cfg, s, e))
  {
    if e.Store? {
      var f := s.calls[e.id];
      FreshStore(cfg, s.history, Stored(KeyOf(f.call, f.phase.cred), f.phase.body));
    } else {
      hide PutAll, FreshKeys, FlightOk, ActiveOk;
      HistoryOnlyGrowsByStores(cfg, s, e);
    }
  }

  lemma HistoryOnlyGrowsByStores(cfg: Config, s: State, e: Event)
    requires Enabled(cfg, s, e) && !e.Store?
    ensures Apply(cfg, s, e).history == s.history
  {
  }

  lemma FreshStore(cfg: Config, history: seq<Stored>, store: Stored)
    requires FreshKeys(ResponseCapacity(cfg), history) == StoredKeys(history)
    requires store.key !in PutAll(ResponseCapacity(cfg), history).bodies
    ensures FreshKeys(ResponseCapacity(cfg), history + [store]) == StoredKeys(history + [store])
  {
    var all := history + [store];
    assert all[..|all| - 1] == history;
    assert StoredKeys(all) == StoredKeys(history) + [store.key];
  }

  lemma IncreaseStep(cfg: Config, s: State, e: Event)
    requires Enabled(cfg, s, e) && StoresIncrease(s)
    requires e.Store? ==> FlightOk(cfg, s, e.id) && ActiveOk(cfg, s, e.id)
    ensures StoresIncrease(Apply(cfg, s, e))
  {
  }

  lemma OthersStep(cfg: Config, s: State, e: Event)
    requires SeqInv(cfg, s) && Enabled(cfg, s, e) && (e.Arrive? ==> AllDone(s))
    ensures OneActive(Apply(cfg, s, e))
    ensures forall id :: id in Apply(cfg, s, e).calls && (e.Tick? || id != e.id) ==> ActiveOk(cfg, Apply(cfg, s, e), id)
  {
    var t := Apply(cfg, s, e);
    if !e.Tick? && !e.Arrive? {
      OthersKept(cfg, s, e);
      assert t.calls.Keys == s.calls.Keys;
      forall id | id in t.calls && id != e.id ensures t.calls[id] == s.calls[id] && s.calls[id].phase.Done? {
      }
    }
  }

  lemma {:induction false} SequentialInvariant(cfg: Config, t0: int, run: seq<Event>)
    requires EqualCapacities(cfg) && Exec(cfg, t0, run).Some? && Sequential(cfg, t0, run)
    ensures SeqInv(cfg, Exec(cfg, t0, run).value)
  {
    if run != [] {
      var init, e := run[..|run| - 1], run[|run| - 1];
      SequentialInvariant(cfg, t0, init);
      Invariant(cfg, t0, init);
      var s := Exec(cfg, t0, init).value;
      OthersStep(cfg, s, e);
      if !e.Tick? && !e.Arrive? {
        assert FlightOk(cfg, s, e.id);
        if Early(e) {
          ActiveEarly(cfg, s, e);
        } else {
          ActiveLate(cfg, s, e);
        }
      }
      IncreaseStep(cfg, s, e);
      FreshStep(cfg, s, e);
    }
  }

  // ----- any interleaving: how long a stored response stays -----

  /**
   The exact life of a cached response, in every interleaving: the latest store
   under a key is served exactly while fewer than `capacity` fresh keys have been
   stored after the one that took the key's slot.
   */
  lemma LatestServedIff(cfg: Config, t0: int, run: seq<Event>, m: nat) returns (j: nat)
    requires Exec(cfg, t0, run).Some? && ResponseCapacity(cfg) > 0
    requires m < |Exec(cfg, t0, run).value.history|
    requires var history := Exec(cfg, t0, run).value.history; Latest(history, m, history[m].key)
    ensures var s, c := Exec(cfg, t0, run).value, ResponseCapacity(cfg);
            && SlotOf(c, s.history, s.history[m].key, j)
            && (Lookup(s.responses, c, s.history[m].key) == Some(s.history[m].body)
                <==> FreshAfter(c, s.history, j) < c)
            && (FreshAfter(c, s.history, j) >= c <==> Lookup(s.responses, c, s.history[m].key).None?)
  {
    Invariant(cfg, t0, run);
    var s, c := Exec(cfg, t0, run).value, ResponseCapacity(cfg);
    var key := s.history[m].key;
    j := SlotExists(c, s.history, m);
    CachedIff(c, s.history, key, j);
    LookupIsLatest(s.responses, c, s.history, m);
  }

  /** What a faithful cache answers is the latest store. */
  lemma LookupIsLatest(c: Responses, capacity: nat, history: seq<Stored>, m: nat)
    requires capacity > 0 && Faithful(c, history) && m < |history| && Latest(history, m, history[m].key)
    ensures Lookup(c, capacity, history[m].key) ==
            if history[m].key in c.bodies then Some(history[m].body) else None
  {
    var key := history[m].key;
    if key in c.bodies {
      var n: nat :| Latest(history, n, key) && history[n].body == c.bodies[key];
      assert n == m;
    }
  }

  /** The `m`-th store's call was admitted within the replay window. */
  ghost predicate StoreRemembered(cfg: Config, s: State, m: nat) {
    m < |s.storedBy| == |s.history| && s.storedBy[m].pos + cfg.capacity >= |s.admissions|
  }

  lemma {:induction false} IncreasingGap(s: State, m: nat, n: nat)
    requires StoresIncrease(s) && m <= n < |s.storedBy|
    ensures n - m <= s.storedBy[n].pos - s.storedBy[m].pos
    decreases n
  {
    if m < n {
      IncreasingGap(s, m, n - 1);
    }
  }

  /**
   What keeps the caches in step, in any interleaving: as long as calls store in the
   order they were admitted and none replaces another's response, a response whose
   call the replay cache remembers is cached.
   */
  lemma InOrderStoresKeepUp(cfg: Config, t0: int, run: seq<Event>, m: nat)
    requires EqualCapacities(cfg) && Exec(cfg, t0, run).Some?
    requires var s := Exec(cfg, t0, run).value; StoresIncrease(s) && AllFresh(cfg, s) && StoreRemembered(cfg, s, m)
    ensures var s := Exec(cfg, t0, run).value;
            Lookup(s.responses, cfg.capacity, s.history[m].key) == Some(s.history[m].body)
  {
    Invariant(cfg, t0, run);
    var s := Exec(cfg, t0, run).value;
    OnlyStoreOfKey(cfg, s, m);
    var j := LatestServedIff(cfg, t0, run, m);
    LastSlotIsOwn(cfg, s, m, j);
    IncreasingGap(s, m, |s.storedBy| - 1);
  }

  /** Where stores take no slot twice, the latest store of a key is its slot, and fresh stores are all stores. */
  lemma LastSlotIsOwn(cfg: Config, s: State, m: nat, j: nat)
    requires EqualCapacities(cfg) && AllFresh(cfg, s) && m < |s.history| && Latest(s.history, m, s.history[m].key)
    requires SlotOf(cfg.capacity, s.history, s.history[m].key, j)
    ensures j == m && FreshAfter(cfg.capacity, s.history, j) == |s.history| - 1 - m
  {
    FreshPrefix(cfg.capacity, s.history, m);
    FreshPrefix(cfg.capacity, s.history, m + 1);
    assert s.history[..m + 1][..m] == s.history[..m];
    assert IsFresh(cfg.capacity, s.history, m);
  }

  /** When every store of a history was fresh, so was every store of a prefix. */
  lemma {:induction false} FreshPrefix(capacity: nat, history: seq<Stored>, n: nat)
    requires n <= |history| && FreshKeys(capacity, history) == StoredKeys(history)
    ensures FreshKeys(capacity, history[..n]) == StoredKeys(history[..n])
    decreases |history|
  {
    if n == |history| {
      assert history[..n] == history;
    } else {
      var init := history[..|history| - 1];
      FreshAtMost(capacity, init);
      assert StoredKeys(history) == StoredKeys(init) + [history[|history| - 1].key];
      assert |FreshKeys(capacity, init)| == |init|;
      FreshPrefix(capacity, init, n);
      assert init[..n] == history[..n];
    }
  }

  lemma {:induction false} FreshAtMost(capacity: nat, history: seq<Stored>)
    ensures |FreshKeys(capacity, history)| <= |history|
  {
    if history != [] {
      FreshAtMost(capacity, history[..|history| - 1]);
    }
  }

  /** Inside the replay window a key has one admission, hence one store. */
  lemma OnlyStoreOfKey(cfg: Config, s: State, m: nat)
    requires EqualCapacities(cfg) && Inv(cfg, s) && StoresIncrease(s) && StoreRemembered(cfg, s, m)
    ensures Latest(s.history, m, s.history[m].key)
  {
    StoreUsesOwnSlot(cfg, s, m);
    forall n | m < n < |s.history| ensures s.history[n].key != s.history[m].key {
      StoreUsesOwnSlot(cfg, s, n);
      IncreasingGap(s, m, n);
      assert s.storedBy[m].pos < s.storedBy[n].pos < |s.admissions|;
    }
  }

  /** A store's key is the key its call was admitted under. */
  lemma StoreUsesOwnSlot(cfg: Config, s: State, m: nat)
    requires AdmissionsOk(cfg, s) && StartsOk(cfg, s) && FlightsOk(cfg, s) && StoresOk(cfg, s) && m < |s.storedBy|
    ensures s.storedBy[m].pos < |s.admitted| && s.admitted[s.storedBy[m].pos] == s.history[m].key
  {
    assert StoreOk(cfg, s, m);
    var id := s.storedBy[m].id;
    assert FlightOk(cfg, s, id);
    assert StartOk(cfg, s, s.calls[id].startAt.value);
    assert AdmissionOk(cfg, s, s.storedBy[m].pos);
  }

  // ----- one call at a time: every remembered handler success -----

  /** Handler start `k`, made for a token, was admitted at a position the replay cache still remembers. */
  ghost predicate Remembered(cfg: Config, s: State, k: nat, p: nat) {
    StartAdmittedAt(s, k, p) && p + cfg.capacity >= |s.admissions|
  }

  /** The call behind start `k` has finished with the handler's response. */
  predicate Succeeded(s: State, k: nat, body: bytes) {
    k < |s.starts| && s.starts[k].id in s.calls && s.calls[s.starts[k].id].phase == Done(Response(body))
  }

  /** Two calls carry the same token id and the same request id. */
  predicate SamePair(s: State, k: nat, id: nat, cred: Credential) {
    && TokenStart(s, k) && id in s.calls
    && s.starts[k].call.Rpc? && s.calls[id].call.Rpc?
    && s.starts[k].who.value.Jti() == cred.Jti()
    && s.starts[k].call.requestId == s.calls[id].call.requestId
  }

  /** A finished call on the cached path has its own store, with the handler's bytes. */
  lemma SuccessIsStored(cfg: Config, s: State, k: nat, p: nat, body: bytes) returns (m: nat)
    requires Inv(cfg, s) && StartAdmittedAt(s, k, p) && Succeeded(s, k, body)
    requires UsesResponseCache(cfg, s.starts[k].call)
    ensures m < |s.storedBy| == |s.history| && s.storedBy[m] == StoredBy(s.starts[k].id, p)
    ensures s.history[m] == Stored(StartKey(s, k), body)
  {
    var id := s.starts[k].id;
    assert StartOk(cfg, s, k) && AdmissionOk(cfg, s, p);
    assert FlightOk(cfg, s, id) && ResultOk(cfg, s, id);
    m :| 0 <= m < |s.storedBy| && s.storedBy[m].id == id && s.history[m].body == body;
    assert StoreOk(cfg, s, m);
  }

  /** A key of a call without a request id is never cached, unless some token id holds the separator. */
  lemma BareKeyIsNeverCached(cfg: Config, s: State, key: string)
    requires Inv(cfg, s) && key in s.responses.bodies
    ensures '|' in key
  {
    var m: nat :| Latest(s.history, m, key) && s.history[m].body == s.responses.bodies[key];
    assert StoreOk(cfg, s, m);
    var call := s.calls[s.storedBy[m].id].call;
    var start := s.starts[s.calls[s.storedBy[m].id].startAt.value];
    assert key == start.who.value.Jti() + "|" + call.requestId.value;
    assert key[|start.who.value.Jti()|] == '|';
  }

  /**
   Identity is the pair: a call whose (token id, request id) pair was never stored
   misses the response cache, however often its request id was served under other
   token ids.
   */
  lemma UnstoredPairMisses(cfg: Config, t0: int, run: seq<Event>, id: nat)
    requires Exec(cfg, t0, run).Some?
    requires var s := Exec(cfg, t0, run).value;
             && id in s.calls && s.calls[id].phase.Verified? && UsesResponseCache(cfg, s.calls[id].call)
             && '|' !in s.calls[id].phase.cred.Jti()
             && forall k: nat, m: nat :: StoreOfStart(s, k, m) ==>
                  '|' !in s.starts[k].who.value.Jti() && !SamePair(s, k, id, s.calls[id].phase.cred)
    ensures var cred := Exec(cfg, t0, run).value.calls[id].phase.cred;
            var after := Exec(cfg, t0, run + [Look(id)]);
            after.Some? && id in after.value.calls && after.value.calls[id].phase == Missed(cred)
  {
    Invariant(cfg, t0, run);
    var s := Exec(cfg, t0, run).value;
    var call, cred := s.calls[id].call, s.calls[id].phase.cred;
    assert (run + [Look(id)])[..|run|] == run;
    if KeyOf(call, cred) in s.responses.bodies {
      var m: nat :| Latest(s.history, m, KeyOf(call, cred));
      assert StoreOk(cfg, s, m);
      var k := s.calls[s.storedBy[m].id].startAt.value;
      assert FlightOk(cfg, s, s.storedBy[m].id) && StartOk(cfg, s, k);
      assert StoreOfStart(s, k, m);
      ComposeKeyInjective(cred.Jti(), call.requestId, s.starts[k].who.value.Jti(), s.starts[k].call.requestId);
      assert false;
    }
  }

  /** The `m`-th store was made by the call of start `k`. */
  predicate StoreOfStart(s: State, k: nat, m: nat) {
    TokenStart(s, k) && m < |s.storedBy| && s.storedBy[m].id == s.starts[k].id
  }

  /**
   Lockstep, over handler results: of the successes the replay cache remembers, with
   one call at a time and equal capacities, exactly those of calls with a request id
   are cached, each with its own bytes.
   */
  lemma SuccessCachedIff(cfg: Config, t0: int, run: seq<Event>, k: nat, p: nat, body: bytes)
    requires EqualCapacities(cfg) && Exec(cfg, t0, run).Some? && Sequential(cfg, t0, run)
    requires var s := Exec(cfg, t0, run).value;
             Remembered(cfg, s, k, p) && Succeeded(s, k, body) && '|' !in s.starts[k].who.value.Jti()
    ensures var s := Exec(cfg, t0, run).value;
            && s.starts[k].call.Rpc?
            && (Lookup(s.responses, cfg.capacity, StartKey(s, k)) == Some(body) <==> s.starts[k].call.requestId.Some?)
  {
    Invariant(cfg, t0, run);
    var s := Exec(cfg, t0, run).value;
    assert StartOk(cfg, s, k);
    if s.starts[k].call.requestId.Some? {
      SuccessStaysCached(cfg, t0, run, k, p, body);
    } else if StartKey(s, k) in s.responses.bodies {
      BareKeyIsNeverCached(cfg, s, StartKey(s, k));
      assert false;
    }
  }

  /** A remembered success of a call with a request id is cached with its own bytes, whatever its token id. */
  lemma SuccessStaysCached(cfg: Config, t0: int, run: seq<Event>, k: nat, p: nat, body: bytes)
    requires EqualCapacities(cfg) && Exec(cfg, t0, run).Some? && Sequential(cfg, t0, run)
    requires var s := Exec(cfg, t0, run).value;
             && Remembered(cfg, s, k, p) && Succeeded(s, k, body)
             && s.starts[k].call.Rpc? && s.starts[k].call.requestId.Some?
    ensures var s := Exec(cfg, t0, run).value;
            Lookup(s.responses, cfg.capacity, StartKey(s, k)) == Some(body)
  {
    SequentialInvariant(cfg, t0, run);
    Invariant(cfg, t0, run);
    var s := Exec(cfg, t0, run).value;
    StartsAreAuthorized(cfg, t0, run, k);
    var m := SuccessIsStored(cfg, s, k, p, body);
    InOrderStoresKeepUp(cfg, t0, run, m);
  }

  /** A verified retry of a remembered success with a request id is answered with the same bytes. */
  lemma RetryIsServed(cfg: Config, t0: int, run: seq<Event>, k: nat, p: nat, body: bytes, id: nat)
    requires EqualCapacities(cfg) && Exec(cfg, t0, run).Some? && Sequential(cfg, t0, run)
    requires var s := Exec(cfg, t0, run).value;
             && Remembered(cfg, s, k, p) && Succeeded(s, k, body)
             && id in s.calls && s.calls[id].phase.Verified? && UsesResponseCache(cfg, s.calls[id].call)
             && SamePair(s, k, id, s.calls[id].phase.cred)
    ensures var s := Exec(cfg, t0, run).value;
            var after := Exec(cfg, t0, run + [Look(id)]);
            after.Some? && id in after.value.calls && after.value.calls[id].phase == Done(CachedResponse(body))
  {
    SuccessStaysCached(cfg, t0, run, k, p, body);
    assert (run + [Look(id)])[..|run|] == run;
  }

  /**
   A call that has missed the response cache, and will be refused as a replay: no
   remembered handler run of its (token id, request id) pair has succeeded.
   */
  lemma RefusedRetryNeverSucceeded(cfg: Config, t0: int, run: seq<Event>, id: nat, k: nat, p: nat, body: bytes)
    requires EqualCapacities(cfg) && Exec(cfg, t0, run).Some? && Sequential(cfg, t0, run)
    requires var s := Exec(cfg, t0, run).value;
             && id in s.calls && s.calls[id].phase.Missed?
             && SamePair(s, k, id, s.calls[id].phase.cred) && Remembered(cfg, s, k, p)
    ensures !Succeeded(Exec(cfg, t0, run).value, k, body)
  {
    SequentialInvariant(cfg, t0, run);
    Invariant(cfg, t0, run);
    var s := Exec(cfg, t0, run).value;
    assert FlightOk(cfg, s, id) && ActiveOk(cfg, s, id);
    if Succeeded(s, k, body) {
      SuccessStaysCached(cfg, t0, run, k, p, body);
      assert false;
    }
  }

  /** The overwrite branch of the response cache is never taken. */
  lemma StoreNeverOverwrites(cfg: Config, t0: int, run: seq<Event>, id: nat)
    requires EqualCapacities(cfg) && Exec(cfg, t0, run).Some? && Sequential(cfg, t0, run)
    requires id in Exec(cfg, t0, run).value.calls && Exec(cfg, t0, run).value.calls[id].phase.Returned?
    ensures var s := Exec(cfg, t0, run).value;
            KeyOf(s.calls[id].call, s.calls[id].phase.cred) !in s.responses.bodies
  {
    SequentialInvariant(cfg, t0, run);
    Invariant(cfg, t0, run);
    var s := Exec(cfg, t0, run).value;
    assert FlightOk(cfg, s, id) && ActiveOk(cfg, s, id);
  }

  /**
   One-at-a-time dispatch is needed: whenever two calls overlap at capacity one and
   the call admitted later stores first, the other's store evicts its response while
   the replay cache still remembers its key.
   */
  lemma OverlapBreaksLockstep(cfg: Config, t0: int, run: seq<Event>, first: nat, second: nat)
    requires cfg.capacity == 1 && EqualCapacities(cfg) && Exec(cfg, t0, run).Some?
    requires var s := Exec(cfg, t0, run).value;
             && first in s.calls && s.calls[first].phase.Returned?
             && second in s.calls && s.calls[second].phase.Returned?
             && KeyOf(s.calls[first].call, s.calls[first].phase.cred)
                != KeyOf(s.calls[second].call, s.calls[second].phase.cred)
             && s.admissions != []
             && s.admissions[|s.admissions| - 1].key == KeyOf(s.calls[second].call, s.calls[second].phase.cred)
    ensures var s := Exec(cfg, t0, run).value;
            var key := KeyOf(s.calls[second].call, s.calls[second].phase.cred);
            var later := Exec(cfg, t0, run + [Store(second), Store(first)]);
            && later.Some? && key in later.value.replay.seen
            && Lookup(later.value.responses, 1, key) == None
            && second in later.value.calls
            && later.value.calls[second].phase == Done(Response(s.calls[second].phase.body))
  {
    Invariant(cfg, t0, run);
    var s := Exec(cfg, t0, run).value;
    var f, g := s.calls[first], s.calls[second];
    var key1, key2 := KeyOf(f.call, f.phase.cred), KeyOf(g.call, g.phase.cred);
    assert AdmissionOk(cfg, s, |s.admissions| - 1);
    RemembersLast(s.replay, s.admitted, key2);
    EvictsOther(s.responses, key1, f.phase.body, key2, g.phase.body);
    StoreBoth(cfg, t0, run, first, second);
  }

  /** Two stores in a row. */
  lemma StoreBoth(cfg: Config, t0: int, run: seq<Event>, first: nat, second: nat)
    requires cfg.responseCapacity == Some(1) && Exec(cfg, t0, run).Some? && first != second
    requires var s := Exec(cfg, t0, run).value;
             && first in s.calls && s.calls[first].phase.Returned?
             && second in s.calls && s.calls[second].phase.Returned?
    ensures var s := Exec(cfg, t0, run).value;
            var f, g := s.calls[first], s.calls[second];
            var later := Exec(cfg, t0, run + [Store(second), Store(first)]);
            && later.Some? && later.value.replay == s.replay
            && later.value.responses == Put(Put(s.responses, 1, KeyOf(g.call, g.phase.cred), g.phase.body),
                                            1, KeyOf(f.call, f.phase.cred), f.phase.body)
            && second in later.value.calls && later.value.calls[second].phase == Done(Response(g.phase.body))
  {
    hide Put;
    var s := Exec(cfg, t0, run).value;
    var mid := run + [Store(second)];
    var all := mid + [Store(first)];
    assert mid[..|mid| - 1] == run && all[..|all| - 1] == mid;
    assert run + [Store(second), Store(first)] == all;
    var s1 := Apply(cfg, s, Store(second));
    assert Exec(cfg, t0, mid) == Some(s1);
    assert s1.calls[first] == s.calls[first];
    assert Exec(cfg, t0, all) == Some(Apply(cfg, s1, Store(first)));
  }

  lemma RemembersLast(c: Replay, admitted: seq<string>, key: string)
    requires Remembers(c, 1, admitted) && admitted != [] && admitted[|admitted| - 1] == key
    ensures key in c.seen
  {
    assert c.order[0] == key;
  }

  /** At capacity one, storing under another key forgets the first. */
  lemma EvictsOther(c: Responses, key1: string, body1: bytes, key2: string, body2: bytes)
    requires WellFormed(c, 1) && key1 != key2
    ensures Lookup(Put(Put(c, 1, key2, body2), 1, key1, body1), 1, key2) == None
  {
    PutKeepsShape(c, 1, key2, body2);
    var d := Put(c, 1, key2, body2);
    PutKeepsShape(d, 1, key1, body1);
    assert key2 in d.order && key1 !in d.order;
    assert Put(d, 1, key1, body1).order == [key1];
  }
}
