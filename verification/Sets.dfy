/** Facts about finite sets. */
module Sets {

  lemma AnyMember<T>(s: set<T>) returns (x: T)
    requires s != {}
    ensures x in s
  {
    x :| x in s;
  }

  /** Any element: the iteration order of a set or map is not specified. */
  method Pick<T(==)>(s: set<T>) returns (x: T)
    requires s != {}
    ensures x in s
  {
    x :| x in s;
  }

  lemma SubsetCard<T>(a: set<T>, b: set<T>)
    requires a <= b
    ensures |a| <= |b|
    ensures |a| == |b| ==> a == b
  {
    assert b == a + (b - a) && a !! (b - a);
    assert |b - a| == 0 ==> b - a == {};
  }

  ghost function Sum<T(!new)>(s: set<T>, f: T -> nat): nat {
    if s == {} then 0
    else
      var x :| x in s;
      f(x) + Sum(s - {x}, f)
  }

  lemma {:induction false} SumPick<T(!new)>(s: set<T>, f: T -> nat, y: T)
    requires y in s
    ensures Sum(s, f) == f(y) + Sum(s - {y}, f)
    decreases s
  {
    var x :| x in s && Sum(s, f) == f(x) + Sum(s - {x}, f);
    if x != y {
      SumPick(s - {x}, f, y);
      SumPick(s - {y}, f, x);
      assert s - {x} - {y} == s - {y} - {x};
    }
  }

  lemma {:induction false} SumSame<T(!new)>(s: set<T>, f: T -> nat, g: T -> nat)
    requires forall x :: x in s ==> f(x) == g(x)
    ensures Sum(s, f) == Sum(s, g)
    decreases s
  {
    if s != {} {
      var x :| x in s && Sum(s, f) == f(x) + Sum(s - {x}, f);
      SumSame(s - {x}, f, g);
      SumPick(s, g, x);
    }
  }

  /** Changing one term changes the sum by the difference. */
  lemma SumChange<T(!new)>(s: set<T>, f: T -> nat, g: T -> nat, y: T)
    requires y in s && forall x :: x in s && x != y ==> f(x) == g(x)
    ensures Sum(s, f) + g(y) == Sum(s, g) + f(y)
  {
    SumPick(s, f, y);
    SumPick(s, g, y);
    SumSame(s - {y}, f, g);
  }

  lemma OneMore(k: nat, most: nat)
    ensures (k + 1) * most == k * most + most
  {
  }

  lemma {:induction false} SumBound<T(!new)>(s: set<T>, f: T -> nat, most: nat)
    requires forall x :: x in s ==> f(x) <= most
    ensures Sum(s, f) <= |s| * most
    decreases s
  {
    if s != {} {
      var x :| x in s && Sum(s, f) == f(x) + Sum(s - {x}, f);
      var k := |s - {x}|;
      SumBound(s - {x}, f, most);
      assert |s| == k + 1;
      OneMore(k, most);
    }
  }
}
