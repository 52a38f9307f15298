/**
 * Prisma's `groupBy(... _count)` and the loops over its result in the
 * repositories: a sequence of (key, count) groups, one per key that occurs,
 * and the totals and per-key assignments the loops compute from it.
 */
module GroupBy {

  datatype Group<K> = Group(key: K, count: nat)

  /** The sum of the counts (`stats.total += count`). */
  function SumCounts<K>(gs: seq<Group<K>>): nat
    decreases |gs|
  {
    if |gs| == 0 then 0 else SumCounts(gs[..|gs| - 1]) + gs[|gs| - 1].count
  }

  /** The count last assigned for key k (`stats.x = count` in a switch), 0 if none. */
  function CountFor<K(==)>(gs: seq<Group<K>>, k: K): nat
    decreases |gs|
  {
    if |gs| == 0 then 0
    else if gs[|gs| - 1].key == k then gs[|gs| - 1].count
    else CountFor(gs[..|gs| - 1], k)
  }

  /** The record filled by `stats[key] = count`. */
  function ToMap<K(==)>(gs: seq<Group<K>>): map<K, nat>
    decreases |gs|
  {
    if |gs| == 0 then map[] else ToMap(gs[..|gs| - 1])[gs[|gs| - 1].key := gs[|gs| - 1].count]
  }

  /** groupBy reports only keys that occur: the groups with a non-zero count. */
  function NonZero<K>(gs: seq<Group<K>>): (r: seq<Group<K>>)
    ensures forall i :: 0 <= i < |r| ==> r[i].count > 0
    decreases |gs|
  {
    if |gs| == 0 then []
    else if gs[|gs| - 1].count == 0 then NonZero(gs[..|gs| - 1])
    else NonZero(gs[..|gs| - 1]) + [gs[|gs| - 1]]
  }

  ghost predicate DistinctKeys<K>(gs: seq<Group<K>>) {
    forall i, j :: 0 <= i < j < |gs| ==> gs[i].key != gs[j].key
  }

  /** Every key of NonZero(gs) is a key of gs. */
  lemma {:induction false} NonZeroKeys<K>(gs: seq<Group<K>>, k: K)
    requires exists i :: 0 <= i < |NonZero(gs)| && NonZero(gs)[i].key == k
    ensures exists j :: 0 <= j < |gs| && gs[j].key == k
    decreases |gs|
  {
    var r := NonZero(gs);
    var i :| 0 <= i < |r| && r[i].key == k;
    var n := |gs| - 1;
    if gs[n].count == 0 {
      NonZeroKeys(gs[..n], k);
      var j :| 0 <= j < n && gs[..n][j].key == k;
      assert gs[j].key == k;
    } else if i == |r| - 1 {
      assert gs[n].key == k;
    } else {
      assert NonZero(gs[..n])[i] == r[i];
      NonZeroKeys(gs[..n], k);
      var j :| 0 <= j < n && gs[..n][j].key == k;
      assert gs[j].key == k;
    }
  }

  lemma {:induction false} NonZeroDistinct<K>(gs: seq<Group<K>>)
    requires DistinctKeys(gs)
    ensures DistinctKeys(NonZero(gs))
    decreases |gs|
  {
    if |gs| > 0 {
      var n := |gs| - 1;
      assert DistinctKeys(gs[..n]);
      NonZeroDistinct(gs[..n]);
      if gs[n].count > 0 {
        var p := NonZero(gs[..n]);
        forall i | 0 <= i < |p|
          ensures p[i].key != gs[n].key
        {
          NonZeroKeys(gs[..n], p[i].key);
          var j :| 0 <= j < n && gs[..n][j].key == p[i].key;
          assert gs[j].key == p[i].key;
        }
      }
    }
  }

  /** Dropping empty groups does not change the total. */
  lemma {:induction false} NonZeroSum<K>(gs: seq<Group<K>>)
    ensures SumCounts(NonZero(gs)) == SumCounts(gs)
    decreases |gs|
  {
    if |gs| > 0 {
      var n := |gs| - 1;
      NonZeroSum(gs[..n]);
      if gs[n].count > 0 {
        assert (NonZero(gs[..n]) + [gs[n]])[..|NonZero(gs[..n])|] == NonZero(gs[..n]);
      }
    }
  }

  /** With distinct keys, dropping empty groups does not change any key's count. */
  lemma {:induction false} NonZeroCount<K>(gs: seq<Group<K>>, k: K)
    requires DistinctKeys(gs)
    ensures CountFor(NonZero(gs), k) == CountFor(gs, k)
    decreases |gs|
  {
    if |gs| > 0 {
      var n := |gs| - 1;
      assert DistinctKeys(gs[..n]);
      NonZeroCount(gs[..n], k);
      if gs[n].key == k {
        AbsentKeyCount(gs[..n], k);
      }
      if gs[n].count > 0 {
        assert (NonZero(gs[..n]) + [gs[n]])[..|NonZero(gs[..n])|] == NonZero(gs[..n]);
      }
    }
  }

  /** With distinct keys, each group's key reads back that group's count. */
  lemma {:induction false} CountForKey<K>(gs: seq<Group<K>>, i: nat)
    requires DistinctKeys(gs) && i < |gs|
    ensures CountFor(gs, gs[i].key) == gs[i].count
    decreases |gs|
  {
    var n := |gs| - 1;
    if i < n {
      assert DistinctKeys(gs[..n]);
      assert gs[..n][i] == gs[i];
      CountForKey(gs[..n], i);
    }
  }

  lemma {:induction false} AbsentKeyCount<K>(gs: seq<Group<K>>, k: K)
    requires forall i :: 0 <= i < |gs| ==> gs[i].key != k
    ensures CountFor(gs, k) == 0
    decreases |gs|
  {
    if |gs| > 0 {
      AbsentKeyCount(gs[..|gs| - 1], k);
    }
  }

  /**
   * The record built from groups: a key is present iff some group carries it,
   * and then maps to that group's count.
   */
  lemma {:induction false} ToMapContents<K>(gs: seq<Group<K>>, k: K)
    ensures k in ToMap(gs) <==> exists i :: 0 <= i < |gs| && gs[i].key == k
    ensures k in ToMap(gs) ==> ToMap(gs)[k] == CountFor(gs, k)
    decreases |gs|
  {
    if |gs| > 0 {
      var n := |gs| - 1;
      ToMapContents(gs[..n], k);
      if exists i :: 0 <= i < n && gs[..n][i].key == k {
        var i :| 0 <= i < n && gs[..n][i].key == k;
        assert gs[i].key == k;
      }
      if gs[n].key != k && exists i :: 0 <= i < |gs| && gs[i].key == k {
        var i :| 0 <= i < |gs| && gs[i].key == k;
        assert gs[..n][i].key == k;
      }
    }
  }

  /** In a sequence of non-empty groups, a key carried by some group has a positive count. */
  lemma {:induction false} PresentKeyCount<K>(gs: seq<Group<K>>, k: K)
    requires forall i :: 0 <= i < |gs| ==> gs[i].count > 0
    requires exists i :: 0 <= i < |gs| && gs[i].key == k
    ensures CountFor(gs, k) > 0
    decreases |gs|
  {
    var n := |gs| - 1;
    if gs[n].key != k {
      var i :| 0 <= i < |gs| && gs[i].key == k;
      assert gs[..n][i].key == k;
      PresentKeyCount(gs[..n], k);
    }
  }

  /**
   * The record of the non-empty groups holds exactly the keys with a
   * positive count, each mapped to its count.
   */
  lemma NonZeroRecord<K>(gs: seq<Group<K>>, k: K)
    requires DistinctKeys(gs)
    ensures k in ToMap(NonZero(gs)) <==> CountFor(gs, k) > 0
    ensures k in ToMap(NonZero(gs)) ==> ToMap(NonZero(gs))[k] == CountFor(gs, k)
  {
    var r := NonZero(gs);
    ToMapContents(r, k);
    NonZeroCount(gs, k);
    if k in ToMap(r) {
      PresentKeyCount(r, k);
    } else {
      AbsentKeyCount(r, k);
    }
  }
}
