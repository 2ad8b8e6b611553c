/** Types and sequence notions shared by every component of the model. */
module Common {

  datatype Option<+T> = None | Some(value: T)

  datatype Result<+T, +E> = Ok(value: T) | Err(error: E)

  type byte = x: int | 0 <= x < 256

  type bytes = seq<byte>

  /** The last `min(|log|, n)` entries of a log, oldest first. */
  function Recent<T>(log: seq<T>, n: nat): (r: seq<T>)
    ensures |r| == if |log| <= n then |log| else n
    ensures forall k :: 0 <= k < |r| ==> r[k] == log[|log| - |r| + k]
  {
    if |log| <= n then log else log[|log| - n..]
  }

  ghost predicate NoDuplicates<T>(s: seq<T>) {
    forall i, j :: 0 <= i < j < |s| ==> s[i] != s[j]
  }

  ghost function Elements<T>(s: seq<T>): set<T> {
    set x | x in s
  }

  /** Every two equal entries of `log` lie more than `n` positions apart. */
  ghost predicate RepeatsFurtherThan<T>(log: seq<T>, n: nat) {
    forall p, q :: 0 <= p < q < |log| && log[p] == log[q] ==> q - p > n
  }

  /** An entry at most `n` from the end of the log is among the recent ones. */
  lemma RecentHolds<T>(log: seq<T>, n: nat, p: nat)
    requires p < |log| <= p + n
    ensures log[p] in Recent(log, n)
  {
    var r := Recent(log, n);
    assert r[p - (|log| - |r|)] == log[p];
  }

  /** Pushing onto a full window drops exactly its oldest entry. */
  lemma RecentPush<T>(log: seq<T>, n: nat, x: T)
    requires n > 0
    ensures Recent(log + [x], n) == (if |log| < n then log else Recent(log, n)[1..]) + [x]
  {
    if |log| >= n {
      var k := |log| - n;
      assert Recent(log, n) == log[k..];
      assert log[k..][1..] == log[k + 1..];
      assert (log + [x])[k + 1..] == log[k + 1..] + [x];
    }
  }
}
