/** Pads told apart by their ids. */
module PadIds {
  import opened EncKeysSpec

  ghost predicate DistinctIds(q: seq<TKey>) {
    forall i, j :: 0 <= i < j < |q| ==> q[i].id != q[j].id
  }

  lemma {:induction false} DistinctOnce(q: seq<TKey>, k: TKey)
    requires DistinctIds(q)
    ensures multiset(q)[k] <= 1 && (multiset(q)[k] == 1 ==> exists i :: 0 <= i < |q| && q[i] == k)
  {
    if q != [] {
      var init, last := q[..|q| - 1], q[|q| - 1];
      DistinctOnce(init, k);
      assert q == init + [last];
      if multiset(init)[k] == 1 {
        var i :| 0 <= i < |init| && init[i] == k;
        assert q[i] == k;
      } else {
        assert q[|q| - 1] == last;
      }
    }
  }

  lemma TwiceCounted(q: seq<TKey>, i: nat, j: nat)
    requires i < j < |q| && q[i] == q[j]
    ensures multiset(q)[q[i]] >= 2
  {
    assert q == q[..i] + [q[i]] + q[i + 1..j] + [q[j]] + q[j + 1..];
  }

  lemma SharedIds(f: seq<TKey>, q: seq<TKey>)
    requires DistinctIds(f) && multiset(f) == multiset(q)
    ensures DistinctIds(q)
  {
    forall i, j | 0 <= i < j < |q| ensures q[i].id != q[j].id {
      DistinctOnce(f, q[i]);
      DistinctOnce(f, q[j]);
      assert q[i] in multiset(q) && q[j] in multiset(q);
      var a :| 0 <= a < |f| && f[a] == q[i];
      var b :| 0 <= b < |f| && f[b] == q[j];
      if q[i].id == q[j].id { TwiceCounted(q, i, j); }
    }
  }
}
