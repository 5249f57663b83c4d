/** Orders of the numbers below a bound, as the sorts return them. */
module Orders {
  /** `order` lists 0, 1, ..., n - 1 in some order. */
  ghost predicate IsOrder(order: seq<nat>, n: nat) {
    && |order| == n
    && (forall k | 0 <= k < n :: order[k] < n)
    && (forall k, l | 0 <= k < l < n :: order[k] != order[l])
    && (forall v: nat | v < n :: v in order)
  }

  lemma PermutedIsOrder(ids: seq<nat>, order: seq<nat>, n: nat)
    requires |ids| == |order| == n && forall k | 0 <= k < n :: ids[k] == k
    requires multiset(ids) == multiset(order)
    ensures IsOrder(order, n)
  {
    forall k | 0 <= k < n
      ensures order[k] < n
    {
      assert order[k] in multiset(ids);
    }
    forall v: nat | v < n
      ensures v in order
    {
      assert v == ids[v] && v in multiset(ids);
    }
    forall k, l | 0 <= k < l < n
      ensures order[k] != order[l]
    {
      if order[k] == order[l] {
        var v := order[k];
        TwiceInMultiset(order, k, l);
        OnceInMultiset(ids, v, n);
        assert false;
      }
    }
  }

  lemma TwiceInMultiset(s: seq<nat>, k: nat, l: nat)
    requires k < l < |s| && s[k] == s[l]
    ensures multiset(s)[s[k]] >= 2
  {
    assert s == s[..l] + s[l..];
    assert s[..l][k] == s[k] && s[l..][0] == s[k];
    assert s[k] in multiset(s[..l]) && s[k] in multiset(s[l..]);
  }

  lemma {:induction false} OnceInMultiset(ids: seq<nat>, v: nat, n: nat)
    requires |ids| == n && forall k | 0 <= k < n :: ids[k] == k
    ensures multiset(ids)[v] == if v < n then 1 else 0
  {
    if n > 0 {
      OnceInMultiset(ids[..n - 1], v, n - 1);
      assert ids == ids[..n - 1] + [n - 1];
    }
  }
}
