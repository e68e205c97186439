/**
 * The `findMany({ where, orderBy: { <time>: "desc" } })` reads of the route handlers.
 *
 * The store gives no order among rows with equal timestamps; the model breaks such ties
 * by the larger key, which is one of the orders the store may return.
 */
module Listing {
  import opened Domain

  /** Row `a` may come before row `b` newest first: a later time, or the same time and a larger key. */
  predicate Ahead(times: map<int, int>, a: int, b: int)
    requires a in times && b in times
  {
    times[a] > times[b] || (times[a] == times[b] && a >= b)
  }

  /** A set of rows holding `x` has a newest row. */
  lemma {:induction false} HasNewest(times: map<int, int>, keys: set<int>, x: int)
    requires x in keys && keys <= times.Keys
    ensures exists k | k in keys :: forall j | j in keys :: Ahead(times, k, j)
    decreases |keys|
  {
    var rest := keys - {x};
    if forall y :: y !in rest {
      forall j | j in keys
        ensures Ahead(times, x, j)
      {
        assert j !in rest;
      }
    } else {
      var y :| y in rest;
      HasNewest(times, rest, y);
      var m :| m in rest && forall j | j in rest :: Ahead(times, m, j);
      var top := if Ahead(times, x, m) then x else m;
      forall j | j in keys
        ensures Ahead(times, top, j)
      {
        if j != x {
          assert j in rest;
        }
      }
    }
  }

  /** The keys of `keys`, each once, with their times in non-increasing order. */
  function Newest(times: map<int, int>, keys: set<int>): (ids: seq<int>)
    requires keys <= times.Keys
    ensures forall i | 0 <= i < |ids| :: ids[i] in keys
    ensures Enumerates(ids, keys)
    ensures forall i, j | 0 <= i < j < |ids| :: times[ids[i]] >= times[ids[j]]
    decreases |keys|
  {
    if forall y :: y !in keys then []
    else
      var y :| y in keys;
      HasNewest(times, keys, y);
      var k :| k in keys && forall j | j in keys :: Ahead(times, k, j);
      var rest := Newest(times, keys - {k});
      NewestCons(times, keys, k, rest);
      [k] + rest
  }

  /** Putting the newest key in front of a newest-first listing of the others lists them all. */
  lemma NewestCons(times: map<int, int>, keys: set<int>, k: int, rest: seq<int>)
    requires keys <= times.Keys && k in keys && forall j | j in keys :: Ahead(times, k, j)
    requires forall i | 0 <= i < |rest| :: rest[i] in keys - {k}
    requires Enumerates(rest, keys - {k})
    requires forall i, j | 0 <= i < j < |rest| :: times[rest[i]] >= times[rest[j]]
    ensures forall i | 0 <= i < |[k] + rest| :: ([k] + rest)[i] in keys
    ensures Enumerates([k] + rest, keys)
    ensures forall i, j | 0 <= i < j < |[k] + rest| :: times[([k] + rest)[i]] >= times[([k] + rest)[j]]
  {
    var ids := [k] + rest;
    forall i | 0 < i < |ids|
      ensures ids[i] == rest[i - 1]
    {
    }
    forall i, j | 0 <= i < j < |ids|
      ensures ids[i] != ids[j]
    {
      if i > 0 {
        assert ids[i] == rest[i - 1] && ids[j] == rest[j - 1];
      }
    }
    forall x: int
      ensures x in ids <==> x in keys
    {
      if x == k {
        assert ids[0] == x;
      } else {
        assert x in ids <==> x in rest;
      }
    }
  }

  /** The keys of `keys`, each once, newest first by `time`. */
  function SelectNewest<T>(m: map<int, T>, keys: set<int>, time: T -> int): (ids: seq<int>)
    requires keys <= m.Keys
    ensures forall i | 0 <= i < |ids| :: ids[i] in keys
    ensures Enumerates(ids, keys)
    ensures forall i, j | 0 <= i < j < |ids| :: time(m[ids[i]]) >= time(m[ids[j]])
  {
    Newest(map k | k in keys :: time(m[k]), keys)
  }

  /** The rows of `m` at `ids`, in that order. */
  function Rows<T>(m: map<int, T>, ids: seq<int>): (rows: seq<T>)
    requires forall i | 0 <= i < |ids| :: ids[i] in m
    ensures |rows| == |ids| && forall i | 0 <= i < |ids| :: rows[i] == m[ids[i]]
  {
    seq(|ids|, i requires 0 <= i < |ids| => m[ids[i]])
  }

  /** Every row of `keys` is among the rows at `ids` when `ids` lists `keys`. */
  lemma RowsCover<T>(m: map<int, T>, keys: set<int>, ids: seq<int>)
    requires keys <= m.Keys && Enumerates(ids, keys)
    requires forall i | 0 <= i < |ids| :: ids[i] in keys
    ensures forall k | k in keys :: m[k] in Rows(m, ids)
  {
    forall k | k in keys
      ensures m[k] in Rows(m, ids)
    {
      var i :| 0 <= i < |ids| && ids[i] == k;
      assert Rows(m, ids)[i] == m[k];
    }
  }
}
