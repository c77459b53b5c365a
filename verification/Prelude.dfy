/** Types and finite-set facts shared by every module. */
module Prelude {

  datatype Option<+T> = None | Some(value: T)

  type Byte = b: int | 0 <= b < 256
  type Bytes = seq<Byte>

  const TWO63: int := 0x8000_0000_0000_0000
  const TWO64: int := 0x1_0000_0000_0000_0000

  /** A Go slice: its length is a non-negative 64-bit int. */
  type Slice = s: Bytes | |s| < TWO63

  /** The sum of `f` over a finite set. */
  ghost function Sum<T(!new)>(s: set<T>, f: T -> int): int
  {
    if s == {} then 0 else
      var x :| x in s;
      f(x) + Sum(s - {x}, f)
  }

  /** Any member can be taken out first: the sum does not depend on the choice made by `Sum`. */
  lemma {:induction false} SumPick<T(!new)>(s: set<T>, f: T -> int, x: T)
    requires x in s
    ensures Sum(s, f) == f(x) + Sum(s - {x}, f)
    decreases |s|
  {
    var y :| y in s && Sum(s, f) == f(y) + Sum(s - {y}, f);
    if y != x {
      SumPick(s - {y}, f, x);
      SumPick(s - {x}, f, y);
      assert s - {y} - {x} == s - {x} - {y};
    }
  }

  lemma {:induction false} SumInsert<T(!new)>(s: set<T>, f: T -> int, x: T)
    requires x !in s
    ensures Sum(s + {x}, f) == Sum(s, f) + f(x)
  {
    SumPick(s + {x}, f, x);
    assert s + {x} - {x} == s;
  }

  /** Functions that agree on the set have the same sum. */
  lemma {:induction false} SumAgree<T(!new)>(s: set<T>, f: T -> int, g: T -> int)
    requires forall x :: x in s ==> f(x) == g(x)
    ensures Sum(s, f) == Sum(s, g)
    decreases |s|
  {
    if s != {} {
      var x :| x in s;
      SumPick(s, f, x);
      SumPick(s, g, x);
      SumAgree(s - {x}, f, g);
    }
  }

  /** Sums of non-negative terms grow with the set. */
  lemma {:induction false} SumMonotone<T(!new)>(a: set<T>, b: set<T>, f: T -> int)
    requires a <= b
    requires forall x :: x in b ==> f(x) >= 0
    ensures 0 <= Sum(a, f) <= Sum(b, f)
    decreases |b|
  {
    if b != {} {
      var x :| x in b;
      SumPick(b, f, x);
      SumMonotone(a - {x}, b - {x}, f);
      if x in a {
        SumPick(a, f, x);
      } else {
        assert a - {x} == a;
      }
    }
  }

  /** Disjoint parts add up. */
  lemma {:induction false} SumUnion<T(!new)>(a: set<T>, b: set<T>, f: T -> int)
    requires a !! b
    ensures Sum(a + b, f) == Sum(a, f) + Sum(b, f)
    decreases |b|
  {
    if b == {} {
      assert a + b == a;
    } else {
      var x :| x in b;
      SumUnion(a, b - {x}, f);
      SumPick(b, f, x);
      SumPick(a + b, f, x);
      assert a + b - {x} == a + (b - {x});
    }
  }

  lemma {:induction false} SumOfZeros<T(!new)>(s: set<T>, f: T -> int)
    requires forall x :: x in s ==> f(x) == 0
    ensures Sum(s, f) == 0
    decreases |s|
  {
    if s != {} {
      var x :| x in s;
      SumPick(s, f, x);
      SumOfZeros(s - {x}, f);
    }
  }

  /** A subset is no larger than the set. */
  lemma {:induction false} SubsetSize<T>(a: set<T>, b: set<T>)
    requires a <= b
    ensures |a| <= |b|
    decreases |a|
  {
    if a != {} {
      var x :| x in a;
      SubsetSize(a - {x}, b - {x});
    }
  }

  /** Inclusion-exclusion for two subsets of a common set. */
  lemma {:induction false} IntersectionSize<T>(a: set<T>, b: set<T>, u: set<T>)
    requires a <= u && b <= u
    ensures |a * b| >= |a| + |b| - |u|
  {
    assert |a + b| == |a| + |b| - |a * b|;
    SubsetSize(a + b, u);
  }

  /** Dividing twice is dividing by the product. */
  lemma DivideTwice(n: nat, a: nat, b: nat)
    requires a > 0 && b > 0
    ensures a * b > 0 && n / (a * b) == (n / a) / b
  {
    var q := n / a;
    DivMod(n, a);
    DivMod(q, b);
    DivideTwiceParts(n, a, b, q / b, q % b, n % a);
  }

  lemma DivMod(n: nat, a: nat)
    requires a > 0
    ensures n == a * (n / a) + n % a && n % a < a
  {
  }

  lemma DivideTwiceParts(n: nat, a: nat, b: nat, q: nat, r': nat, r: nat)
    requires a > 0 && r < a && r' < b && n == a * (b * q + r') + r
    ensures a * b > 0 && n / (a * b) == q
  {
    var c, rest := a * b, a * r' + r;
    assert a * (b * q + r') == c * q + a * r' by {
      assert a * (b * q) == c * q;
    }
    assert rest < c by {
      assert a * (r' + 1) <= a * b;
    }
    Quotient(n, c, q, rest);
  }

  lemma Quotient(n: nat, c: nat, q: nat, rest: nat)
    requires rest < c && n == c * q + rest
    ensures n / c == q
  {
    var d: int := n / c - q;
    Multiple(c, d);
    assert n % c - rest == -(c * d);
  }

  lemma Multiple(c: int, d: int)
    requires c >= 0
    ensures d >= 1 ==> c * d >= c
    ensures d <= -1 ==> c * d <= -c
  {
  }

  /** A sequence without repetition has as many members as positions. */
  ghost predicate Distinct<T>(s: seq<T>)
  {
    forall i, j :: 0 <= i < j < |s| ==> s[i] != s[j]
  }

  /** The members of a sequence. */
  function Elements<T(==)>(s: seq<T>): set<T>
  {
    set x | x in s
  }

  lemma ElementsSnoc<T>(s: seq<T>, x: T)
    ensures Elements(s + [x]) == Elements(s) + {x}
  {
  }

  /** A sequence has at most as many members as positions. */
  lemma {:induction false} AtMostAsMany<T>(s: seq<T>)
    ensures |set x | x in s| <= |s|
    decreases |s|
  {
    if s == [] {
      assert (set x | x in s) == {};
    } else {
      var last, front := s[|s| - 1], s[..|s| - 1];
      AtMostAsMany(front);
      assert (set x | x in s) == (set x | x in front) + {last};
    }
  }

  lemma {:induction false} DistinctSize<T>(s: seq<T>)
    requires Distinct(s)
    ensures |set x | x in s| == |s|
  {
    var all := set x | x in s;
    if s == [] {
      assert all == {};
    } else {
      var last, front := s[|s| - 1], s[..|s| - 1];
      DistinctSize(front);
      var some := set x | x in front;
      assert all == some + {last};
    }
  }
}
