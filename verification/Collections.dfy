/** Facts about sequences and finite sets that several modules use. */
module Collections {

  lemma Associates<T>(a: seq<T>, b: seq<T>, c: seq<T>)
    ensures a + b + c == a + (b + c)
  {
  }

  /** A subset is no larger. */
  lemma {:induction false} SubsetSize<T>(a: set<T>, b: set<T>)
    requires a <= b
    ensures |a| <= |b|
  {
    if x :| x in a {
      SubsetSize(a - {x}, b - {x});
    }
  }

  /** `picked` lists the members of `s` in increasing order. */
  ghost predicate Lists(picked: seq<nat>, s: set<nat>) {
    && (forall j, k :: 0 <= j < k < |picked| ==> picked[j] < picked[k])
    && (forall i :: i in picked <==> i in s)
  }

  lemma ListsNext(picked: seq<nat>, s: set<nat>, n: nat)
    requires Lists(picked, s) && forall i :: i in s ==> i < n
    ensures Lists(picked + [n], s + {n})
  {
    forall k | 0 <= k < |picked|
      ensures picked[k] < n
    {
      assert picked[k] in picked;
    }
  }
}
