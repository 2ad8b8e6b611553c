/**
 The bounded FIFO replay cache for token ids. A key is a token id, optionally
 joined with a request id; `seen` answers membership and `order` remembers
 arrival order for eviction.
 */
module ReplayCache {
  import opened Common

  /** The cache key of a token id and an optional request id. */
  function ComposeKey(jti: string, requestId: Option<string>): string {
    match requestId
    case None => jti
    case Some(rid) => jti + "|" + rid
  }

  /**
   Two different token ids can share a key for some pair of request ids exactly
   when one of them is the other followed by the separator (and anything).
   */
  lemma KeyCollisionIff(j1: string, j2: string)
    requires j1 != j2
    ensures (exists r1, r2 :: ComposeKey(j1, r1) == ComposeKey(j2, r2))
            <==> j1 + "|" <= j2 || j2 + "|" <= j1
  {
    if j1 + "|" <= j2 {
      assert ComposeKey(j1, Some(j2[|j1| + 1..])) == ComposeKey(j2, None);
    }
    if j2 + "|" <= j1 {
      assert ComposeKey(j2, Some(j1[|j2| + 1..])) == ComposeKey(j1, None);
    }
    forall r1, r2 | ComposeKey(j1, r1) == ComposeKey(j2, r2)
      ensures j1 + "|" <= j2 || j2 + "|" <= j1
    {
      CollisionIsPrefix(j1, r1, j2, r2);
    }
  }

  lemma CollisionIsPrefix(j1: string, r1: Option<string>, j2: string, r2: Option<string>)
    requires j1 != j2 && ComposeKey(j1, r1) == ComposeKey(j2, r2)
    ensures j1 + "|" <= j2 || j2 + "|" <= j1
    ensures '|' in j1 || '|' in j2
  {
    var k := ComposeKey(j1, r1);
    assert k[..|j1|] == j1 && k[..|j2|] == j2;
    if |j1| < |j2| {
      assert k[|j1|] == '|' && j2[|j1|] == k[|j1|];
      assert j2[..|j1|] == j1;
      assert j1 + "|" == j2[..|j1| + 1];
    } else if |j2| < |j1| {
      assert k[|j2|] == '|' && j1[|j2|] == k[|j2|];
      assert j1[..|j2|] == j2;
      assert j2 + "|" == j1[..|j2| + 1];
    }
  }

  /** Keys are unambiguous for the token ids the issuer mints (UUIDs hold no separator). */
  lemma ComposeKeyInjective(j1: string, r1: Option<string>, j2: string, r2: Option<string>)
    requires '|' !in j1 && '|' !in j2
    requires ComposeKey(j1, r1) == ComposeKey(j2, r2)
    ensures j1 == j2 && r1 == r2
  {
    if j1 != j2 {
      CollisionIsPrefix(j1, r1, j2, r2);
      assert false;
    }
    assert |ComposeKey(j1, r1)| == |ComposeKey(j2, r2)|;
    if r1.Some? && r2.Some? {
      assert r1.value == ComposeKey(j1, r1)[|j1| + 1..];
      assert r2.value == ComposeKey(j2, r2)[|j2| + 1..];
    }
  }

  datatype Replay = Replay(seen: set<string>, order: seq<string>)

  const EMPTY_REPLAY := Replay({}, [])

  /** Whether `key` would be admitted. Capacity 0 switches protection off. */
  predicate Admissible(c: Replay, capacity: nat, key: string) {
    capacity == 0 || key !in c.seen
  }

  /** The cache after offering `key` to it. */
  function Insert(c: Replay, capacity: nat, key: string): Replay {
    if capacity == 0 || key in c.seen then c
    else if |c.order| == capacity && |c.order| > 0 then
      Replay(c.seen - {c.order[0]} + {key}, c.order[1..] + [key])
    else
      Replay(c.seen + {key}, c.order + [key])
  }

  /**
   What the cache remembers, given the log of every key it ever admitted: the
   last `capacity` of them, without repetition, with `seen` their exact set.
   */
  ghost predicate Remembers(c: Replay, capacity: nat, admitted: seq<string>) {
    if capacity == 0 then c == EMPTY_REPLAY
    else
      && c.order == Recent(admitted, capacity)
      && NoDuplicates(c.order)
      && c.seen == Elements(c.order)
      && RepeatsFurtherThan(admitted, capacity)
  }

  /**
   One offer keeps the window law. Because a key is admitted only when it is
   outside the window, equal keys in the log stay more than `capacity` apart.
   */
  lemma InsertKeepsWindow(c: Replay, capacity: nat, admitted: seq<string>, key: string)
    requires Remembers(c, capacity, admitted)
    ensures Admissible(c, capacity, key) ==> Remembers(Insert(c, capacity, key), capacity, admitted + [key])
    ensures !Admissible(c, capacity, key) ==> Insert(c, capacity, key) == c
  {
    if capacity > 0 && key !in c.seen {
      RecentPush(admitted, capacity, key);
      SeenFollowsOrder(c, capacity, key);
      RepeatsStayFar(c, capacity, admitted, key);
    }
  }

  /** Eviction removes from `seen` exactly what it removes from `order`. */
  lemma SeenFollowsOrder(c: Replay, capacity: nat, key: string)
    requires capacity > 0 && key !in c.seen
    requires NoDuplicates(c.order) && c.seen == Elements(c.order) && |c.order| <= capacity
    ensures Insert(c, capacity, key).seen == Elements(Insert(c, capacity, key).order)
    ensures NoDuplicates(Insert(c, capacity, key).order)
  {
    var d := Insert(c, capacity, key);
    assert key !in c.order;
    forall x ensures x in d.seen <==> x in d.order {
      if |c.order| == capacity {
        assert c.order == [c.order[0]] + c.order[1..];
        assert c.order[0] !in c.order[1..];
      }
    }
  }

  lemma RepeatsStayFar(c: Replay, capacity: nat, admitted: seq<string>, key: string)
    requires capacity > 0 && key !in c.seen && Remembers(c, capacity, admitted)
    ensures RepeatsFurtherThan(admitted + [key], capacity)
  {
    forall p, q | 0 <= p < q < |admitted| + 1 && (admitted + [key])[p] == (admitted + [key])[q]
      ensures q - p > capacity
    {
      if q == |admitted| {
        if q - p <= capacity {
          RecentHolds(admitted, capacity, p);
          assert false;
        }
      } else {
        assert admitted[p] == admitted[q];
      }
    }
  }

  /** The mutex-guarded cache object; `admitted` is the history it has accepted. */
  class JtiReplayCache {
    const capacity: nat
    var seen: set<string>
    var order: seq<string>
    ghost var admitted: seq<string>

    ghost predicate Valid()
      reads this
    {
      Remembers(Replay(seen, order), capacity, admitted)
    }

    constructor (capacity: nat)
      ensures Valid() && this.capacity == capacity
      ensures seen == {} && order == [] && admitted == []
    {
      this.capacity := capacity;
      seen, order, admitted := {}, [], [];
    }

    /**
     Membership check and admission in one step. A key is refused exactly when
     it is one of the last `capacity` admitted keys.
     */
    method InsertKeyed(jti: string, requestId: Option<string>) returns (accepted: bool)
      requires Valid()
      modifies this
      ensures Valid()
      ensures accepted == old(Admissible(Replay(seen, order), capacity, ComposeKey(jti, requestId)))
      ensures Replay(seen, order) == old(Insert(Replay(seen, order), capacity, ComposeKey(jti, requestId)))
      ensures admitted == if accepted then old(admitted) + [ComposeKey(jti, requestId)] else old(admitted)
      ensures accepted <==> ComposeKey(jti, requestId) !in Recent(old(admitted), capacity)
    {
      var key := ComposeKey(jti, requestId);
      InsertKeepsWindow(Replay(seen, order), capacity, admitted, key);
      if capacity == 0 {
        admitted := admitted + [key];
        return true;
      }
      if key in seen {
        return false;
      }
      if |order| == capacity {
        var evicted := order[0];
        order := order[1..];
        seen := seen - {evicted};
      }
      seen := seen + {key};
      order := order + [key];
      admitted := admitted + [key];
      accepted := true;
    }

    method ContainsKeyed(jti: string, requestId: Option<string>) returns (present: bool)
      requires Valid()
      ensures present <==> ComposeKey(jti, requestId) in Recent(admitted, capacity)
    {
      present := ComposeKey(jti, requestId) in seen;
    }
  }
}
