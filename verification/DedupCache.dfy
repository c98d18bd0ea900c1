/** The bounded caches that drop repeated logs and transactions
    (crates/market-data/src/listener.rs: `RecentLogCache` and `RecentTxCache`). */
module DedupCache {

  /** The last `limit` of `accepted`: the window of remembered keys. */
  function Window<K>(accepted: seq<K>, limit: nat): (w: seq<K>)
    ensures |w| == if |accepted| < limit then |accepted| else limit
  {
    if |accepted| <= limit then accepted else accepted[|accepted| - limit..]
  }

  /** The keys a cache accepts out of `keys`: those not in the window when they come. */
  function Accepted<K(==)>(keys: seq<K>, limit: nat): seq<K>
    decreases |keys|
  {
    if |keys| == 0 then []
    else
      var before := Accepted(keys[..|keys| - 1], limit);
      var key := keys[|keys| - 1];
      if key in Window(before, limit) then before else before + [key]
  }

  ghost predicate Distinct<K>(s: seq<K>) {
    forall i, j :: 0 <= i < j < |s| ==> s[i] != s[j]
  }

  lemma WindowStep<K>(accepted: seq<K>, limit: nat, key: K)
    ensures Window(accepted + [key], limit) == Window(Window(accepted, limit) + [key], limit)
  {
    var longer := accepted + [key];
    if |accepted| > limit {
      var w := accepted[|accepted| - limit..] + [key];
      assert w[1..] == longer[|longer| - limit..];
    }
  }

  /** The window never holds a key twice. */
  lemma {:induction false} WindowDistinct<K>(keys: seq<K>, limit: nat)
    ensures Distinct(Window(Accepted(keys, limit), limit))
    decreases |keys|
  {
    if |keys| > 0 {
      var before := Accepted(keys[..|keys| - 1], limit);
      var key := keys[|keys| - 1];
      WindowDistinct(keys[..|keys| - 1], limit);
      WindowStep(before, limit, key);
    }
  }

  lemma InWindow<K>(accepted: seq<K>, limit: nat, i: nat)
    requires i < |accepted| && |accepted| - i <= limit
    ensures accepted[i] in Window(accepted, limit)
  {
    var w := Window(accepted, limit);
    assert w[i - (|accepted| - |w|)] == accepted[i];
  }

  function Elements<K>(s: seq<K>): set<K> {
    set k | k in s
  }

  lemma DropOldest<K>(s: seq<K>)
    requires |s| > 0 && Distinct(s)
    ensures Distinct(s[1..]) && Elements(s[1..]) == Elements(s) - {s[0]}
  {
    forall k ensures k in Elements(s[1..]) <==> k in Elements(s) && k != s[0] {
      assert s == [s[0]] + s[1..];
      if k in s[1..] {
        var i :| 0 <= i < |s[1..]| && s[1..][i] == k;
        assert s[i + 1] == k;
      }
    }
  }

  lemma AddNewest<K>(s: seq<K>, key: K)
    requires Distinct(s) && key !in s
    ensures Distinct(s + [key]) && Elements(s + [key]) == Elements(s) + {key}
  {
  }

  /** A key is accepted again only after `limit` others have been accepted since. */
  lemma {:induction false} RepeatsAreFarApart<K>(keys: seq<K>, limit: nat, i: nat, j: nat)
    requires var a := Accepted(keys, limit); i < j < |a| && a[i] == a[j]
    ensures j - i > limit
    decreases |keys|
  {
    var a, before := Accepted(keys, limit), Accepted(keys[..|keys| - 1], limit);
    if j < |before| {
      RepeatsAreFarApart(keys[..|keys| - 1], limit, i, j);
    } else {
      assert a[j] == keys[|keys| - 1] && before[i] == a[i];
      if |before| - i <= limit {
        InWindow(before, limit, i);
      }
    }
  }

  lemma AcceptedStep<K>(keys: seq<K>, limit: nat, key: K)
    ensures var a := Accepted(keys, limit);
            && Accepted(keys + [key], limit) == (if key in Window(a, limit) then a else a + [key])
            && Window(a + [key], limit) == Window(Window(a, limit) + [key], limit)
  {
    assert (keys + [key])[..|keys + [key]| - 1] == keys;
    WindowStep(Accepted(keys, limit), limit, key);
  }

  ghost predicate Tail<K>(w: seq<K>, s: seq<K>) {
    |w| <= |s| && w == s[|s| - |w|..]
  }

  lemma WholeTail<K>(s: seq<K>)
    ensures Tail(s, s)
  {
  }

  lemma TailOfTail<K>(w: seq<K>, s: seq<K>)
    requires Tail(w, s) && |w| > 0
    ensures Tail(w[1..], s)
  {
  }

  lemma WindowIs<K>(s: seq<K>, limit: nat, w: seq<K>)
    requires Tail(w, s) && |w| <= limit && (|w| >= limit || w == s)
    ensures w == Window(s, limit)
  {
  }

  class RecentCache<K(==)> {
    const limit: nat
    var order: seq<K>
    var keys: set<K>
    /** Every key ever offered, in order. */
    ghost var offered: seq<K>

    ghost predicate Valid()
      reads this
    {
      && order == Window(Accepted(offered, limit), limit)
      && keys == Elements(order)
      && Distinct(order)
    }

    constructor (limit: nat)
      ensures Valid() && this.limit == limit && offered == []
    {
      this.limit := limit;
      order, keys, offered := [], {}, [];
    }

    /** Accepts a key exactly when it is not among the last `limit` accepted ones. */
    method Insert(key: K) returns (isNew: bool)
      requires Valid()
      modifies this
      ensures Valid() && offered == old(offered) + [key]
      ensures isNew <==> key !in Window(Accepted(old(offered), limit), limit)
      ensures Accepted(offered, limit) == if isNew then Accepted(old(offered), limit) + [key]
                                          else Accepted(old(offered), limit)
    {
      hide Accepted, Window, Elements, Distinct, Tail;
      ghost var was := offered;
      AcceptedStep(was, limit, key);
      if Contains(key) {
        offered := offered + [key];
        return false;
      }
      AddNewest(order, key);
      keys := keys + {key};
      order := order + [key];
      ghost var full := order;
      assert Tail(order, full) by {
        WholeTail(full);
      }
      while |order| > limit
        invariant Tail(order, full) && (|order| >= limit || order == full)
        invariant Distinct(order) && keys == Elements(order) && offered == was
      {
        var oldest := order[0];
        DropOldest(order);
        TailOfTail(order, full);
        order := order[1..];
        keys := keys - {oldest};
      }
      WindowIs(full, limit, order);
      offered := offered + [key];
      return true;
    }

    predicate Contains(key: K)
      requires Valid()
      reads this
      ensures Contains(key) <==> key in Window(Accepted(offered, limit), limit)
    {
      assert key in keys <==> key in order;
      key in keys
    }
  }
}
