/** Finite sets of transaction numbers, and their sizes. */
module Sets {

  ghost function Range(n: nat): (s: set<nat>)
    ensures |s| == n && forall t: nat :: t in s <==> t < n
  {
    if n == 0 then {} else Range(n - 1) + {n - 1}
  }

  lemma {:induction false} SubsetSize<T>(s: set<T>, u: set<T>)
    requires s <= u
    ensures |s| <= |u|
    ensures |s| == |u| ==> s == u
    decreases s
  {
    if s != {} {
      var x :| x in s;
      SubsetSize(s - {x}, u - {x});
      assert s == (s - {x}) + {x} && u == (u - {x}) + {x};
    }
  }
}
