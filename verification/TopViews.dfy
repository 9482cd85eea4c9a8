/** Bounded priority queues that keep the entries with the largest counts (redshow/include/analysis/analysis.h). */
module TopViews {
  import opened Common

  datatype Ranked<T> = Ranked(redCount: nat, item: T)

  /** `q` holds the `limit` largest of `all`. */
  ghost predicate Best<T>(all: set<Ranked<T>>, q: set<Ranked<T>>, limit: nat) {
    q <= all && |q| == Min(limit, |all|) && forall u, w | u in q && w in all - q :: w.redCount <= u.redCount
  }

  /** What the top of the heap is: some entry with the smallest count. */
  predicate Least<T(==)>(q: set<Ranked<T>>, v: Ranked<T>) { v in q && forall u | u in q :: v.redCount <= u.redCount }

  lemma {:induction false} LeastExists<T>(q: set<Ranked<T>>)
    requires q != {}
    ensures exists v :: Least(q, v)
    decreases q
  {
    var v :| v in q;
    if q != {v} {
      LeastExists(q - {v});
      var u :| Least(q - {v}, u);
      assert Least(q, if v.redCount < u.redCount then v else u);
    } else {
      assert Least(q, v);
    }
  }

  lemma SameSize<T>(q: set<Ranked<T>>, all: set<Ranked<T>>)
    requires q <= all && |q| == |all|
    ensures q == all
  {
    assert |all - q| == 0;
  }

  /** A full heap: the newcomer replaces the least entry, or stays out. */
  lemma BestSwaps<T>(q: set<Ranked<T>>, v: Ranked<T>, limit: nat, all: set<Ranked<T>>, top: Ranked<T>)
    requires limit > 0 && v !in all && Best(all, q, limit) && |q| == limit && Least(q, top)
    ensures Best(all + {v}, if top.redCount < v.redCount then q - {top} + {v} else q, limit)
  {
    var q' := if top.redCount < v.redCount then q - {top} + {v} else q;
    assert |all| >= limit && |all + {v}| == |all| + 1 && |q'| == limit;
    forall u, w | u in q' && w in all + {v} - q' ensures w.redCount <= u.redCount {
      if w in all - q && u !in q { assert w.redCount <= top.redCount; }
    }
  }

  /** Offers an entry to a heap of at most `limit` entries. */
  method Offer<T(==)>(q: set<Ranked<T>>, v: Ranked<T>, limit: nat, ghost all: set<Ranked<T>>)
    returns (q': set<Ranked<T>>)
    requires limit > 0 && v !in all && Best(all, q, limit)
    ensures Best(all + {v}, q', limit)
  {
    if |q| < limit {
      SameSize(q, all);
      q' := q + {v};
    } else {
      LeastExists(q);
      var top :| Least(q, top);
      BestSwaps(q, v, limit, all, top);
      q' := if top.redCount < v.redCount then q - {top} + {v} else q;
    }
  }

  predicate Ascending<T>(list: seq<Ranked<T>>) {
    forall i, j | 0 <= i < j < |list| :: list[i].redCount <= list[j].redCount
  }

  /** Empties the heap, smallest first. */
  method Drain<T(==)>(q: set<Ranked<T>>) returns (list: seq<Ranked<T>>)
    ensures |list| == |q| && Ascending(list) && q == set v | v in list
  {
    list := [];
    var left := q;
    while left != {}
      invariant left <= q && |list| + |left| == |q| && Ascending(list)
      invariant forall v :: v in q <==> v in left || v in list
      invariant forall i, v | 0 <= i < |list| && v in left :: list[i].redCount <= v.redCount
      decreases left
    {
      LeastExists(left);
      var top :| Least(left, top);
      list, left := list + [top], left - {top};
    }
  }

  /** The `limit` largest entries of `all`, smallest first. */
  ghost predicate Tops<T>(all: set<Ranked<T>>, limit: nat, list: seq<Ranked<T>>) {
    Ascending(list) && |list| == Min(limit, |all|) && Best(all, (set v | v in list), limit)
  }
}
