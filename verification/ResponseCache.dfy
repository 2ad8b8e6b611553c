/**
 The bounded FIFO cache of response bodies. Storing under a key that is already
 present replaces the body and leaves the key's place in the eviction order.
 */
module ResponseCache {
  import opened Common

  datatype Responses = Responses(bodies: map<string, bytes>, order: seq<string>)

  const EMPTY_RESPONSES := Responses(map[], [])

  /** One store the cache was asked to perform. */
  datatype Stored = Stored(key: string, body: bytes)

  function Key(jti: string, requestId: string): string {
    jti + "|" + requestId
  }

  function Lookup(c: Responses, capacity: nat, key: string): Option<bytes> {
    if capacity > 0 && key in c.bodies then Some(c.bodies[key]) else None
  }

  /** The cache after storing `body` under `key`. */
  function Put(c: Responses, capacity: nat, key: string, body: bytes): Responses {
    if capacity == 0 then c
    else if key in c.bodies then c.(bodies := c.bodies[key := body])
    else if |c.order| == capacity && |c.order| > 0 then
      Responses((c.bodies - {c.order[0]})[key := body], c.order[1..] + [key])
    else
      Responses(c.bodies[key := body], c.order + [key])
  }

  /** `m` is the latest store under `key` in the history. */
  ghost predicate Latest(history: seq<Stored>, m: nat, key: string) {
    && m < |history|
    && history[m].key == key
    && forall n :: m < n < |history| ==> history[n].key != key
  }

  /** `key` holds `body`, and that is what the latest store under `key` wrote. */
  ghost predicate HoldsLatest(history: seq<Stored>, key: string, body: bytes) {
    exists m: nat :: Latest(history, m, key) && history[m].body == body
  }

  /** Shape law: the body map and the eviction order name the same keys, once each. */
  ghost predicate WellFormed(c: Responses, capacity: nat) {
    && c.bodies.Keys == Elements(c.order)
    && NoDuplicates(c.order)
    && |c.order| <= capacity
  }

  /** Content law: every cached body is the one most recently stored for its key. */
  ghost predicate Faithful(c: Responses, history: seq<Stored>) {
    forall k :: k in c.bodies ==> HoldsLatest(history, k, c.bodies[k])
  }

  lemma PutKeepsShape(c: Responses, capacity: nat, key: string, body: bytes)
    requires WellFormed(c, capacity)
    ensures WellFormed(Put(c, capacity, key, body), capacity)
    ensures key in c.bodies ==> Put(c, capacity, key, body).order == c.order
  {
    if capacity > 0 && key !in c.bodies {
      var d := Put(c, capacity, key, body);
      forall x ensures x in d.bodies.Keys <==> x in d.order {
        if |c.order| == capacity {
          assert c.order == [c.order[0]] + c.order[1..];
          assert c.order[0] !in c.order[1..];
        }
      }
      assert key !in c.order;
    } else {
      assert Put(c, capacity, key, body).bodies.Keys == c.bodies.Keys;
    }
  }

  lemma PutKeepsFaithful(c: Responses, capacity: nat, history: seq<Stored>, key: string, body: bytes)
    requires capacity == 0 ==> c.bodies == map[]
    requires Faithful(c, history)
    ensures Faithful(Put(c, capacity, key, body), history + [Stored(key, body)])
  {
    var d, h := Put(c, capacity, key, body), history + [Stored(key, body)];
    forall k | k in d.bodies ensures HoldsLatest(h, k, d.bodies[k]) {
      if k == key {
        assert Latest(h, |history|, key);
      } else {
        assert k in c.bodies && c.bodies[k] == d.bodies[k];
        var m: nat :| Latest(history, m, k) && history[m].body == c.bodies[k];
        assert Latest(h, m, k);
      }
    }
  }

  /** A fresh key is queued like a push onto a bounded window. */
  lemma PutFreshIsPush(c: Responses, capacity: nat, stored: seq<string>, key: string, body: bytes)
    requires capacity > 0 && key !in c.bodies
    requires c.order == Recent(stored, capacity)
    ensures Put(c, capacity, key, body).order == Recent(stored + [key], capacity)
  {
    RecentPush(stored, capacity, key);
  }

  // ----- what a whole history of stores leaves -----

  function PutAll(capacity: nat, history: seq<Stored>): Responses {
    if history == [] then EMPTY_RESPONSES
    else
      var last := history[|history| - 1];
      Put(PutAll(capacity, history[..|history| - 1]), capacity, last.key, last.body)
  }

  /** The `j`-th store found its key absent and took a new slot. */
  predicate IsFresh(capacity: nat, history: seq<Stored>, j: nat) {
    j < |history| && history[j].key !in PutAll(capacity, history[..j]).bodies
  }

  /** The keys of the fresh stores, in order. */
  function FreshKeys(capacity: nat, history: seq<Stored>): seq<string> {
    if history == [] then []
    else
      var init, last := history[..|history| - 1], history[|history| - 1];
      FreshKeys(capacity, init) + if last.key in PutAll(capacity, init).bodies then [] else [last.key]
  }

  /** How many stores after the `j`-th were fresh. */
  function FreshAfter(capacity: nat, history: seq<Stored>, j: nat): int
    requires j < |history|
  {
    |FreshKeys(capacity, history)| - |FreshKeys(capacity, history[..j + 1])|
  }

  /** The `j`-th store took the slot `key` still has, or had when it was evicted. */
  ghost predicate SlotOf(capacity: nat, history: seq<Stored>, key: string, j: nat) {
    && IsFresh(capacity, history, j) && history[j].key == key
    && forall n: nat :: j < n && IsFresh(capacity, history, n) ==> history[n].key != key
  }

  lemma {:induction false} PutAllIsSound(capacity: nat, history: seq<Stored>)
    ensures WellFormed(PutAll(capacity, history), capacity)
    ensures Faithful(PutAll(capacity, history), history)
    ensures capacity == 0 ==> PutAll(capacity, history) == EMPTY_RESPONSES
  {
    if history != [] {
      hide Put, WellFormed, Faithful;
      var init, last := history[..|history| - 1], history[|history| - 1];
      PutAllIsSound(capacity, init);
      PutKeepsShape(PutAll(capacity, init), capacity, last.key, last.body);
      PutKeepsFaithful(PutAll(capacity, init), capacity, init, last.key, last.body);
      assert history == init + [Stored(last.key, last.body)];
      NothingAtZero(PutAll(capacity, init), capacity, last.key, last.body);
    }
  }

  lemma NothingAtZero(c: Responses, capacity: nat, key: string, body: bytes)
    ensures capacity == 0 ==> Put(c, capacity, key, body) == c
  {
  }

  /** The eviction order is the window of the fresh keys. */
  lemma {:induction false} OrderIsFreshWindow(capacity: nat, history: seq<Stored>)
    requires capacity > 0
    ensures PutAll(capacity, history).order == Recent(FreshKeys(capacity, history), capacity)
  {
    if history != [] {
      hide Put, WellFormed, Faithful, Recent;
      var init, last := history[..|history| - 1], history[|history| - 1];
      OrderIsFreshWindow(capacity, init);
      PutAllIsSound(capacity, init);
      if last.key in PutAll(capacity, init).bodies {
        PutKeepsShape(PutAll(capacity, init), capacity, last.key, last.body);
      } else {
        PutFreshIsPush(PutAll(capacity, init), capacity, FreshKeys(capacity, init), last.key, last.body);
      }
    } else {
      assert Recent(FreshKeys(capacity, history), capacity) == [];
    }
  }

  /** Where the slot's key stands among the fresh keys, and that it does not come again. */
  lemma {:induction false} SlotPosition(capacity: nat, history: seq<Stored>, key: string, j: nat) returns (q: nat)
    requires SlotOf(capacity, history, key, j)
    ensures q + 1 == |FreshKeys(capacity, history[..j + 1])| <= |FreshKeys(capacity, history)|
    ensures FreshKeys(capacity, history)[q] == key
    ensures forall i :: q < i < |FreshKeys(capacity, history)| ==> FreshKeys(capacity, history)[i] != key
  {
    var init := history[..|history| - 1];
    if j == |history| - 1 {
      q := |FreshKeys(capacity, init)|;
      assert history[..j + 1] == history;
    } else {
      assert init[..j] == history[..j] && init[..j + 1] == history[..j + 1];
      forall n: nat | j < n && IsFresh(capacity, init, n) ensures init[n].key != key {
        assert init[..n] == history[..n];
        assert IsFresh(capacity, history, n);
      }
      q := SlotPosition(capacity, init, key, j);
      assert history[..|history| - 1] == init;
      assert IsFresh(capacity, history, |history| - 1) ==> history[|history| - 1].key != key;
    }
  }

  /**
   The exact life of a slot: its key is cached exactly while fewer than `capacity`
   fresh stores have followed.
   */
  lemma CachedIff(capacity: nat, history: seq<Stored>, key: string, j: nat)
    requires capacity > 0 && SlotOf(capacity, history, key, j)
    ensures key in PutAll(capacity, history).bodies <==> FreshAfter(capacity, history, j) < capacity
  {
    OrderIsFreshWindow(capacity, history);
    PutAllIsSound(capacity, history);
    var q := SlotPosition(capacity, history, key, j);
    var pushed := FreshKeys(capacity, history);
    if q + capacity >= |pushed| {
      RecentHolds(pushed, capacity, q);
    }
  }

  /** Every stored key has a slot. */
  lemma {:induction false} SlotExists(capacity: nat, history: seq<Stored>, m: nat) returns (j: nat)
    requires capacity > 0 && m < |history|
    ensures SlotOf(capacity, history, history[m].key, j)
  {
    hide PutAll;
    var init, last := history[..|history| - 1], history[|history| - 1];
    var key := history[m].key;
    if last.key == key && last.key !in PutAll(capacity, init).bodies {
      j := |history| - 1;
    } else {
      var p := if last.key == key then EarlierStore(capacity, init, key) else m;
      j := SlotExists(capacity, init, p);
      SlotSurvives(capacity, history, key, j);
    }
  }

  ghost function EarlierStore(capacity: nat, history: seq<Stored>, key: string): (p: nat)
    requires key in PutAll(capacity, history).bodies
    ensures p < |history| && history[p].key == key
  {
    PutAllIsSound(capacity, history);
    var p: nat :| Latest(history, p, key);
    p
  }

  /** A slot stays the key's slot when the last store is not a fresh store of that key. */
  lemma SlotSurvives(capacity: nat, history: seq<Stored>, key: string, j: nat)
    requires history != [] && SlotOf(capacity, history[..|history| - 1], key, j)
    requires history[|history| - 1].key == key ==> key in PutAll(capacity, history[..|history| - 1]).bodies
    ensures SlotOf(capacity, history, key, j)
  {
    hide PutAll;
    var init := history[..|history| - 1];
    assert init[..j] == history[..j];
    forall n: nat | j < n && IsFresh(capacity, history, n) ensures history[n].key != key {
      if n < |init| {
        assert init[..n] == history[..n];
        assert IsFresh(capacity, init, n);
      } else {
        assert history[..n] == init;
      }
    }
  }

  class RpcResponseCache {
    const capacity: nat
    var bodies: map<string, bytes>
    var order: seq<string>
    ghost var history: seq<Stored>

    ghost predicate Valid()
      reads this
    {
      WellFormed(Responses(bodies, order), capacity) && Faithful(Responses(bodies, order), history)
    }

    constructor (capacity: nat)
      ensures Valid() && this.capacity == capacity
      ensures bodies == map[] && order == [] && history == []
    {
      this.capacity := capacity;
      bodies, order, history := map[], [], [];
    }

    /** A hit is byte-identical to the latest store under the same key. */
    method Get(jti: string, requestId: string) returns (body: Option<bytes>)
      requires Valid()
      ensures body == Lookup(Responses(bodies, order), capacity, Key(jti, requestId))
      ensures body.Some? ==> HoldsLatest(history, Key(jti, requestId), body.value)
    {
      var key := Key(jti, requestId);
      if capacity > 0 && key in bodies {
        body := Some(bodies[key]);
      } else {
        body := None;
      }
    }

    method Insert(jti: string, requestId: string, body: bytes)
      requires Valid()
      modifies this
      ensures Valid()
      ensures Responses(bodies, order) == old(Put(Responses(bodies, order), capacity, Key(jti, requestId), body))
      ensures history == old(history) + [Stored(Key(jti, requestId), body)]
    {
      var key := Key(jti, requestId);
      PutKeepsShape(Responses(bodies, order), capacity, key, body);
      PutKeepsFaithful(Responses(bodies, order), capacity, history, key, body);
      history := history + [Stored(key, body)];
      if capacity == 0 {
        return;
      }
      if key in bodies {
        bodies := bodies[key := body];
        return;
      }
      if |order| == capacity {
        var evicted := order[0];
        order := order[1..];
        bodies := bodies - {evicted};
      }
      bodies := bodies[key := body];
      order := order + [key];
    }
  }
}
