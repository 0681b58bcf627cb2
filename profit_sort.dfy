/**
 * sortChainByProfit: `sorted(chain, key=expectedPercentChange, reverse=True)`.
 * Python's sort is stable, also with `reverse=True`, so the result is the
 * unique arrangement that is non-increasing in the key and keeps options
 * with equal keys in their input order; `SortByProfit` builds it by
 * insertion, and `SortByProfitUnique` shows any other such arrangement is
 * the same sequence. Comparing a `None` key raises TypeError.
 */
module ProfitSort {
  import opened Wrappers
  import opened OptionObject
  import opened SeqFacts

  /** Every option carries a percentage change to sort on. */
  predicate AllKeyed(s: seq<Option>)
    reads s
  {
    forall i :: 0 <= i < |s| ==> s[i].expectedPercentChange.Some?
  }

  function Key(o: Option): real
    reads o
    requires o.expectedPercentChange.Some?
  {
    o.expectedPercentChange.value
  }

  /** Each option's key is at least that of every option after it. */
  predicate NonIncreasing(s: seq<Option>)
    reads s
    requires AllKeyed(s)
  {
    forall i, j :: 0 <= i < j < |s| ==> Key(s[i]) >= Key(s[j])
  }

  /** The options whose key is `k`, in their order in `s`. */
  function WithKey(s: seq<Option>, k: real): seq<Option>
    reads s
  {
    if s == [] then []
    else (if s[0].expectedPercentChange == Some(k) then [s[0]] else []) + WithKey(s[1..], k)
  }

  lemma {:induction false} AllKeyedOfMultiset(s: seq<Option>, t: seq<Option>)
    requires AllKeyed(s) && multiset(t) <= multiset(s)
    ensures AllKeyed(t)
  {
    forall i | 0 <= i < |t|
      ensures t[i].expectedPercentChange.Some?
    {
      assert t[i] in multiset(t);
      assert t[i] in s;
    }
  }

  lemma SameMembers(t: seq<Option>, s: seq<Option>)
    requires multiset(t) == multiset(s)
    ensures forall i :: 0 <= i < |t| ==> t[i] in s
  {
    forall i | 0 <= i < |t|
      ensures t[i] in s
    {
      assert t[i] in multiset(t);
    }
  }

  /** `x` placed before the first option whose key does not exceed its own. */
  function Insert(x: Option, s: seq<Option>): (r: seq<Option>)
    reads x, s
    requires x.expectedPercentChange.Some? && AllKeyed(s)
    ensures multiset(r) == multiset{x} + multiset(s)
    ensures forall i :: 0 <= i < |r| ==> r[i] == x || r[i] in s
  {
    if s == [] || Key(s[0]) <= Key(x) then [x] + s
    else
      var rest := Insert(x, s[1..]);
      assert s == [s[0]] + s[1..];
      [s[0]] + rest
  }

  /** The stable sort, descending by key. */
  function SortByProfit(s: seq<Option>): (r: seq<Option>)
    reads s
    requires AllKeyed(s)
    ensures multiset(r) == multiset(s)
  {
    if s == [] then []
    else
      var rest := SortByProfit(s[1..]);
      AllKeyedOfMultiset(s[1..], rest);
      SameMembers(rest, s[1..]);
      assert s == [s[0]] + s[1..];
      Insert(s[0], rest)
  }

  lemma ConsOrdered(a: Option, s: seq<Option>)
    requires a.expectedPercentChange.Some? && AllKeyed(s) && NonIncreasing(s)
    requires forall j :: 0 <= j < |s| ==> Key(a) >= Key(s[j])
    ensures AllKeyed([a] + s) && NonIncreasing([a] + s)
  {
    var r := [a] + s;
    assert forall j :: 1 <= j < |r| ==> r[j] == s[j - 1];
  }

  lemma {:induction false} InsertOrdered(x: Option, s: seq<Option>)
    requires x.expectedPercentChange.Some? && AllKeyed(s) && NonIncreasing(s)
    ensures AllKeyed(Insert(x, s)) && NonIncreasing(Insert(x, s))
  {
    if s == [] || Key(s[0]) <= Key(x) {
      ConsOrdered(x, s);
    } else {
      assert AllKeyed(s[1..]) && NonIncreasing(s[1..]);
      InsertOrdered(x, s[1..]);
      var rest := Insert(x, s[1..]);
      forall j | 0 <= j < |rest|
        ensures Key(s[0]) >= Key(rest[j])
      {
        assert rest[j] in rest;
        if rest[j] != x {
          var i :| 0 <= i < |s[1..]| && s[1..][i] == rest[j];
          assert s[i + 1] == rest[j];
        }
      }
      ConsOrdered(s[0], rest);
    }
  }

  lemma {:induction false} SortByProfitOrdered(s: seq<Option>)
    requires AllKeyed(s)
    ensures AllKeyed(SortByProfit(s)) && NonIncreasing(SortByProfit(s))
  {
    if s != [] {
      SortByProfitOrdered(s[1..]);
      InsertOrdered(s[0], SortByProfit(s[1..]));
    }
  }

  lemma WithKeySingle(x: Option, k: real)
    ensures WithKey([x], k) == if x.expectedPercentChange == Some(k) then [x] else []
  {
    assert [x][1..] == [];
  }

  lemma WithKeyCons(x: Option, s: seq<Option>, k: real)
    ensures WithKey([x] + s, k) == WithKey([x], k) + WithKey(s, k)
  {
    assert ([x] + s)[1..] == s;
    WithKeySingle(x, k);
  }

  lemma {:induction false} InsertStable(x: Option, s: seq<Option>, k: real)
    requires x.expectedPercentChange.Some? && AllKeyed(s) && NonIncreasing(s)
    ensures WithKey(Insert(x, s), k) == WithKey([x], k) + WithKey(s, k)
  {
    if s == [] || Key(s[0]) <= Key(x) {
      WithKeyCons(x, s, k);
    } else {
      var head, tail := s[0], s[1..];
      assert s == [head] + tail;
      assert AllKeyed(tail) && NonIncreasing(tail);
      var rest := Insert(x, tail);
      assert Insert(x, s) == [head] + rest;
      InsertStable(x, tail, k);
      WithKeyCons(head, rest, k);
      WithKeyCons(head, tail, k);
      WithKeySingle(head, k);
      WithKeySingle(x, k);
      // `head` and `x` have different keys, so at most one of them has key `k`.
      assert WithKey([head], k) == [] || WithKey([x], k) == [];
      SwapEmpty(WithKey([head], k), WithKey([x], k), WithKey(tail, k));
    }
  }

  lemma {:induction false} SortByProfitStable(s: seq<Option>, k: real)
    requires AllKeyed(s)
    ensures WithKey(SortByProfit(s), k) == WithKey(s, k)
  {
    if s != [] {
      assert s == [s[0]] + s[1..];
      SortByProfitStable(s[1..], k);
      SortByProfitOrdered(s[1..]);
      InsertStable(s[0], SortByProfit(s[1..]), k);
      WithKeyCons(s[0], s[1..], k);
    }
  }

  lemma {:induction false} WithKeyMember(s: seq<Option>, k: real, o: Option)
    requires o in WithKey(s, k)
    ensures o in s && o.expectedPercentChange == Some(k)
  {
    if s != [] {
      if o != s[0] || s[0].expectedPercentChange != Some(k) {
        WithKeyMember(s[1..], k, o);
      }
    }
  }

  lemma {:induction false} WithKeyHasMember(s: seq<Option>, i: nat)
    requires i < |s| && s[i].expectedPercentChange.Some?
    ensures s[i] in WithKey(s, s[i].expectedPercentChange.value)
  {
    if i > 0 {
      WithKeyHasMember(s[1..], i - 1);
    }
  }

  /** Two such arrangements of the same options begin with the same option. */
  lemma SameFirst(u: seq<Option>, v: seq<Option>)
    requires u != [] && v != []
    requires AllKeyed(u) && AllKeyed(v) && NonIncreasing(u) && NonIncreasing(v)
    requires forall k :: WithKey(u, k) == WithKey(v, k)
    ensures u[0] == v[0]
  {
    var ku, kv := Key(u[0]), Key(v[0]);
    WithKeyHasMember(u, 0);
    WithKeyHasMember(v, 0);
    assert WithKey(u, ku) == WithKey(v, ku) && WithKey(u, kv) == WithKey(v, kv);
    WithKeyMember(v, ku, u[0]);
    WithKeyMember(u, kv, v[0]);
    assert ku == kv by {
      var i :| 0 <= i < |v| && v[i] == u[0];
      var j :| 0 <= j < |u| && u[j] == v[0];
      assert Key(v[0]) >= Key(v[i]);
      assert Key(u[0]) >= Key(u[j]);
    }
    assert WithKey(u, ku)[0] == u[0];
    assert WithKey(v, ku)[0] == v[0];
  }

  /** With the first options equal, the rests have the same options per key. */
  lemma SameRest(u: seq<Option>, v: seq<Option>, k: real)
    requires u != [] && v != [] && u[0] == v[0]
    requires WithKey(u, k) == WithKey(v, k)
    ensures WithKey(u[1..], k) == WithKey(v[1..], k)
  {
    assert u == [u[0]] + u[1..] && v == [v[0]] + v[1..];
    WithKeyCons(u[0], u[1..], k);
    WithKeyCons(v[0], v[1..], k);
    CancelPrefix(WithKey([u[0]], k), WithKey(u[1..], k), WithKey(v[1..], k));
  }

  /**
   * A non-increasing arrangement that keeps the order among equal keys is
   * unique: two of them with the same options per key are the same sequence.
   */
  lemma {:induction false} StableArrangementUnique(u: seq<Option>, v: seq<Option>)
    requires AllKeyed(u) && AllKeyed(v) && NonIncreasing(u) && NonIncreasing(v)
    requires forall k :: WithKey(u, k) == WithKey(v, k)
    ensures u == v
    decreases |u| + |v|
  {
    if u == [] && v == [] {
    } else if u == [] {
      WithKeyHasMember(v, 0);
      assert false;
    } else if v == [] {
      WithKeyHasMember(u, 0);
      assert false;
    } else {
      SameFirst(u, v);
      forall k
        ensures WithKey(u[1..], k) == WithKey(v[1..], k)
      {
        SameRest(u, v, k);
      }
      assert AllKeyed(u[1..]) && AllKeyed(v[1..]) && NonIncreasing(u[1..]) && NonIncreasing(v[1..]);
      StableArrangementUnique(u[1..], v[1..]);
      assert u == [u[0]] + u[1..] && v == [v[0]] + v[1..];
    }
  }

  /** Any stable descending sort of `s`, Python's among them, yields `SortByProfit(s)`. */
  lemma SortByProfitUnique(s: seq<Option>, t: seq<Option>)
    requires AllKeyed(s) && AllKeyed(t) && NonIncreasing(t)
    requires forall k :: WithKey(t, k) == WithKey(s, k)
    ensures t == SortByProfit(s)
  {
    SortByProfitOrdered(s);
    forall k
      ensures WithKey(t, k) == WithKey(SortByProfit(s), k)
    {
      SortByProfitStable(s, k);
    }
    StableArrangementUnique(t, SortByProfit(s));
  }

  /** sortChainByProfit: the chain sorted descending by percentage change; a `None` key among two or more raises. */
  function SortChainByProfit(chain: seq<Option>): (r: Result<seq<Option>>)
    reads chain
    ensures r.Ok? <==> |chain| <= 1 || AllKeyed(chain)
    ensures r.Err? ==> r.error == TypeError
    ensures r.Ok? ==> multiset(r.value) == multiset(chain)
  {
    if |chain| <= 1 then Ok(chain)
    else if AllKeyed(chain) then Ok(SortByProfit(chain))
    else Err(TypeError)
  }

  /** A sorted keyed chain is a non-increasing, stable rearrangement of it. */
  lemma SortChainByProfitSpec(chain: seq<Option>, k: real)
    requires AllKeyed(chain)
    ensures SortChainByProfit(chain).Ok?
    ensures var r := SortChainByProfit(chain).value;
            && multiset(r) == multiset(chain)
            && AllKeyed(r) && NonIncreasing(r)
            && WithKey(r, k) == WithKey(chain, k)
  {
    SortByProfitOrdered(chain);
    SortByProfitStable(chain, k);
  }
}
