/** The order in which a hash map yields its keys: any arrangement without repetition. */
module Iteration {

  ghost predicate IsOrder<T(!new)>(order: seq<T>, keys: set<T>) {
    && (forall i, j | 0 <= i < j < |order| :: order[i] != order[j])
    && (forall k :: k in order <==> k in keys)
  }

  lemma OrderGrows<T(!new)>(order: seq<T>, keys: set<T>, key: T)
    requires IsOrder(order, keys) && key !in keys
    ensures IsOrder(order + [key], keys + {key})
  {
    assert forall i | 0 <= i < |order| :: order[i] in order;
  }

  lemma OrderPrefix<T>(order: seq<T>, n: nat)
    requires n < |order| && forall i, j | 0 <= i < j < |order| :: order[i] != order[j]
    ensures order[n] !in order[..n]
    ensures forall k :: k in order[..n + 1] <==> k in order[..n] || k == order[n]
  {
    assert order[..n + 1] == order[..n] + [order[n]];
  }

  lemma {:induction false} OrderSize<T(!new)>(order: seq<T>, keys: set<T>)
    requires IsOrder(order, keys)
    ensures |order| == |keys|
  {
    if order != [] {
      var n := |order| - 1;
      OrderPrefix(order, n);
      assert order[..n + 1] == order;
      assert keys == (keys - {order[n]}) + {order[n]};
      OrderSize(order[..n], keys - {order[n]});
    } else {
      assert keys == {};
    }
  }

  lemma {:induction false} OrderExists<T(!new)>(keys: set<T>) returns (order: seq<T>)
    ensures IsOrder(order, keys)
    decreases keys
  {
    order := [];
    if keys != {} {
      var key :| key in keys;
      order := OrderExists(keys - {key});
      OrderGrows(order, keys - {key}, key);
      assert keys == (keys - {key}) + {key};
      order := order + [key];
    }
  }

  lemma SameFrontAndLast<T>(a: seq<T>, b: seq<T>)
    requires |a| == |b| > 0 && a[..|a| - 1] == b[..|b| - 1] && a[|a| - 1] == b[|b| - 1]
    ensures a == b
  {
    assert a == a[..|a| - 1] + [a[|a| - 1]] && b == b[..|b| - 1] + [b[|b| - 1]];
  }
}
