/** Sums over finite sets, independent of the order of summation. */
module Sums {

  lemma Member<K>(s: set<K>) returns (x: K)
    requires s != {}
    ensures x in s
  {
    x :| x in s;
  }

  ghost function SumOver<K>(s: set<K>, f: K -> real): real {
    if s == {} then 0.0
    else
      var x :| x in s;
      f(x) + SumOver(s - {x}, f)
  }

  /** Any element may be taken out first. */
  lemma {:induction false} SumRemove<K>(s: set<K>, f: K -> real, x: K)
    requires x in s
    ensures SumOver(s, f) == f(x) + SumOver(s - {x}, f)
    decreases |s|
  {
    var y :| y in s && SumOver(s, f) == f(y) + SumOver(s - {y}, f);
    if y != x {
      SumRemove(s - {y}, f, x);
      SumRemove(s - {x}, f, y);
      assert s - {y} - {x} == s - {x} - {y};
    }
  }

  lemma SumAdd<K>(s: set<K>, f: K -> real, x: K)
    requires x !in s
    ensures SumOver(s + {x}, f) == SumOver(s, f) + f(x)
  {
    SumRemove(s + {x}, f, x);
    assert s + {x} - {x} == s;
  }

  lemma {:induction false} SumSame<K>(s: set<K>, f: K -> real, g: K -> real)
    requires forall x | x in s :: f(x) == g(x)
    ensures SumOver(s, f) == SumOver(s, g)
    decreases |s|
  {
    if s != {} {
      var x :| x in s;
      SumRemove(s, f, x);
      SumRemove(s, g, x);
      SumSame(s - {x}, f, g);
    }
  }

  lemma {:induction false} SumPlus<K>(s: set<K>, f: K -> real, g: K -> real, h: K -> real)
    requires forall x | x in s :: h(x) == f(x) + g(x)
    ensures SumOver(s, h) == SumOver(s, f) + SumOver(s, g)
    decreases |s|
  {
    if s != {} {
      var x :| x in s;
      SumRemove(s, f, x);
      SumRemove(s, g, x);
      SumRemove(s, h, x);
      SumPlus(s - {x}, f, g, h);
    }
  }

  function Times(d: real, a: real): real {
    d * a
  }

  lemma Distribute(d: real, a: real, b: real)
    ensures Times(d, a + b) == Times(d, a) + Times(d, b)
  {
  }

  lemma {:induction false} SumScale<K>(s: set<K>, g: K -> real, d: real, h: K -> real)
    requires forall x | x in s :: h(x) == Times(d, g(x))
    ensures SumOver(s, h) == Times(d, SumOver(s, g))
    decreases |s|
  {
    if s != {} {
      hide Times;
      var x :| x in s;
      SumRemove(s, g, x);
      SumRemove(s, h, x);
      SumScale(s - {x}, g, d, h);
      Distribute(d, g(x), SumOver(s - {x}, g));
    }
  }

  lemma {:induction false} SumZero<K>(s: set<K>, f: K -> real)
    requires forall x | x in s :: f(x) == 0.0
    ensures SumOver(s, f) == 0.0
    decreases |s|
  {
    if s != {} {
      var x :| x in s;
      SumRemove(s, f, x);
      SumZero(s - {x}, f);
    }
  }

  /** A sum with one term that can differ from zero. */
  lemma SumOne<K>(s: set<K>, f: K -> real, x: K)
    requires x in s && forall y | y in s && y != x :: f(y) == 0.0
    ensures SumOver(s, f) == f(x)
  {
    SumRemove(s, f, x);
    SumZero(s - {x}, f);
  }

  lemma {:induction false} SumNonNegative<K>(s: set<K>, f: K -> real)
    requires forall x | x in s :: f(x) >= 0.0
    ensures SumOver(s, f) >= 0.0
    decreases |s|
  {
    if s != {} {
      var x :| x in s;
      SumRemove(s, f, x);
      SumNonNegative(s - {x}, f);
    }
  }

  /** The members of one class. */
  ghost function ClassOf<K, L>(s: set<K>, classOf: K -> L, l: L): set<K> {
    set x | x in s && classOf(x) == l
  }

  /** Summing class by class sums everything once. */
  lemma {:induction false} SumByClass<K, L>(s: set<K>, f: K -> real, classOf: K -> L, classes: set<L>, g: L -> real)
    requires forall x | x in s :: classOf(x) in classes
    requires forall l | l in classes :: g(l) == SumOver(ClassOf(s, classOf, l), f)
    ensures SumOver(classes, g) == SumOver(s, f)
    decreases |s|
  {
    if s == {} {
      forall l | l in classes
        ensures g(l) == 0.0
      {
        assert ClassOf(s, classOf, l) == {};
      }
      SumZero(classes, g);
    } else {
      var x :| x in s;
      var rest := s - {x};
      var own := classOf(x);
      var h: L -> real := l => if l == own then g(l) - f(x) else g(l);
      forall l | l in classes
        ensures h(l) == SumOver(ClassOf(rest, classOf, l), f)
      {
        var whole := ClassOf(s, classOf, l);
        var part := ClassOf(rest, classOf, l);
        if l == own {
          assert part == whole - {x};
          SumRemove(whole, f, x);
        } else {
          assert part == whole;
        }
      }
      SumByClass(rest, f, classOf, classes, h);
      SumRemove(s, f, x);
      SumRemove(classes, g, own);
      SumRemove(classes, h, own);
      SumSame(classes - {own}, g, h);
    }
  }
}
