/** Result type and the few sequence facts every other module leans on. */
module Prelude {

  datatype Option<+T> = None | Some(value: T)

  datatype Result<+T> = Ok(value: T) | Err(error: Error)

  /** The exception classes of the engine, as far as they can be told apart here. */
  datatype Error =
    | ReadFailed | WriteFailed | TaskInvalid | TransformFailed | CycleFound
    | DuplicateName | BlankName | UnknownName | SelfDependency | BadDegree

  predicate NoDup<T(==)>(s: seq<T>) {
    forall i, j :: 0 <= i < j < |s| ==> s[i] != s[j]
  }

  function Elems<T>(s: seq<T>): set<T> {
    set x | x in s
  }

  /** How many positions of `s` hold `x`. */
  function Occ<T(==)>(x: T, s: seq<T>): nat {
    if s == [] then 0 else (if s[|s| - 1] == x then 1 else 0) + Occ(x, s[..|s| - 1])
  }

  lemma {:induction false} OccMember<T>(x: T, s: seq<T>)
    ensures Occ(x, s) > 0 <==> x in s
  {
    if s != [] {
      OccMember(x, s[..|s| - 1]);
      assert s == s[..|s| - 1] + [s[|s| - 1]];
    }
  }

  lemma {:induction false} OccSnoc<T>(x: T, s: seq<T>, y: T)
    ensures Occ(x, s + [y]) == Occ(x, s) + (if x == y then 1 else 0)
  {
    assert (s + [y])[..|s|] == s;
  }

  function Filter<T>(p: T -> bool, s: seq<T>): (r: seq<T>) {
    if s == [] then []
    else Filter(p, s[..|s| - 1]) + (if p(s[|s| - 1]) then [s[|s| - 1]] else [])
  }

  lemma {:induction false} FilterMember<T>(p: T -> bool, s: seq<T>, x: T)
    ensures x in Filter(p, s) <==> x in s && p(x)
  {
    if s != [] {
      FilterMember(p, s[..|s| - 1], x);
      assert s == s[..|s| - 1] + [s[|s| - 1]];
    }
  }

  lemma {:induction false} FilterElems<T>(p: T -> bool, s: seq<T>)
    ensures Elems(Filter(p, s)) == set x | x in s && p(x)
  {
    var kept := set x | x in s && p(x);
    forall x ensures x in Elems(Filter(p, s)) <==> x in kept {
      FilterMember(p, s, x);
    }
    assert Elems(Filter(p, s)) == kept;
  }

  lemma {:induction false} FilterConcat<T>(p: T -> bool, a: seq<T>, b: seq<T>)
    ensures Filter(p, a + b) == Filter(p, a) + Filter(p, b)
  {
    if b == [] {
      assert a + b == a;
    } else {
      FilterConcat(p, a, b[..|b| - 1]);
      assert (a + b)[..|a + b| - 1] == a + b[..|b| - 1];
    }
  }

  lemma {:induction false} FilterLength<T>(p: T -> bool, s: seq<T>)
    ensures |Filter(p, s)| <= |s|
  {
    if s != [] {
      FilterLength(p, s[..|s| - 1]);
    }
  }

  lemma {:induction false} FilterNoDup<T>(p: T -> bool, s: seq<T>)
    requires NoDup(s)
    ensures NoDup(Filter(p, s))
  {
    if s != [] {
      FilterNoDup(p, s[..|s| - 1]);
      FilterMember(p, s[..|s| - 1], s[|s| - 1]);
    }
  }

  /** Sum of `f` over the positions of `s`. */
  function Sum<T>(f: T -> int, s: seq<T>): int {
    if s == [] then 0 else Sum(f, s[..|s| - 1]) + f(s[|s| - 1])
  }

  lemma {:induction false} SumConcat<T>(f: T -> int, a: seq<T>, b: seq<T>)
    ensures Sum(f, a + b) == Sum(f, a) + Sum(f, b)
  {
    if b == [] {
      assert a + b == a;
    } else {
      SumConcat(f, a, b[..|b| - 1]);
      assert (a + b)[..|a + b| - 1] == a + b[..|b| - 1];
    }
  }

  lemma {:induction false} SumExt<T>(f: T -> int, g: T -> int, s: seq<T>)
    requires forall x :: x in s ==> f(x) == g(x)
    ensures Sum(f, s) == Sum(g, s)
  {
    if s != [] {
      SumExt(f, g, s[..|s| - 1]);
    }
  }

  lemma {:induction false} SumRemoved<T>(f: T -> int, s: seq<T>, k: nat)
    requires k < |s|
    ensures Sum(f, s) == Sum(f, s[..k] + s[k + 1..]) + f(s[k])
  {
    assert s == s[..k + 1] + s[k + 1..];
    SumConcat(f, s[..k + 1], s[k + 1..]);
    SumConcat(f, s[..k], s[k + 1..]);
    assert s[..k + 1][..k] == s[..k];
  }

  /** A sum does not depend on the order in which distinct elements are visited. */
  lemma {:induction false} SumPermutation<T>(f: T -> int, a: seq<T>, b: seq<T>)
    requires NoDup(a) && NoDup(b) && Elems(a) == Elems(b)
    ensures Sum(f, a) == Sum(f, b)
    decreases |a|
  {
    if a == [] {
      NoDupSize(b);
    } else {
      assert a[0] in Elems(b);
      var k :| 0 <= k < |b| && b[k] == a[0];
      SumRemoved(f, a, 0);
      SumRemoved(f, b, k);
      RemovedElems(a, 0);
      RemovedElems(b, k);
      SumPermutation(f, a[..0] + a[1..], b[..k] + b[k + 1..]);
    }
  }

  lemma RemovedElems<T>(s: seq<T>, k: nat)
    requires k < |s| && NoDup(s)
    ensures NoDup(s[..k] + s[k + 1..])
    ensures Elems(s[..k] + s[k + 1..]) == Elems(s) - {s[k]}
  {
    var r := s[..k] + s[k + 1..];
    forall i | 0 <= i < |r| ensures r[i] == s[if i < k then i else i + 1] {}
    forall x | x in Elems(s) - {s[k]} ensures x in Elems(r) {
      var i :| 0 <= i < |s| && s[i] == x;
      assert r[if i < k then i else i - 1] == x;
    }
  }

  lemma TakeDrop<T>(s: seq<T>, n: nat)
    requires n <= |s|
    ensures s == s[..n] + s[n..]
  {
  }

  lemma TakeTake<T>(s: seq<T>, n: nat, i: nat)
    requires i <= n <= |s|
    ensures s[..n][..i] == s[..i]
  {
  }

  lemma NoDupConcat<T>(a: seq<T>, b: seq<T>)
    ensures NoDup(a + b) <==> NoDup(a) && NoDup(b) && forall x :: x in b ==> x !in a
  {
    var c := a + b;
    assert forall i :: 0 <= i < |a| ==> c[i] == a[i];
    assert forall j :: 0 <= j < |b| ==> c[|a| + j] == b[j];
    if NoDup(c) {
      forall x | x in b ensures x !in a {
        var j :| 0 <= j < |b| && b[j] == x;
        assert forall i :: 0 <= i < |a| ==> c[i] != c[|a| + j];
      }
      forall i, j | 0 <= i < j < |b| ensures b[i] != b[j] {
        assert c[|a| + i] != c[|a| + j];
      }
    }
    if NoDup(a) && NoDup(b) && forall x :: x in b ==> x !in a {
      forall i, j | 0 <= i < j < |c| ensures c[i] != c[j] {
        if i < |a| <= j {
          assert c[j] in b;
        }
      }
    }
  }

  /** More draws than distinct values repeat a value. */
  lemma {:induction false} Pigeonhole<T>(p: seq<T>, pool: set<T>)
    requires |p| > |pool| && forall x :: x in p ==> x in pool
    ensures !NoDup(p)
    decreases |p|
  {
    if NoDup(p) {
      var n := |p| - 1;
      var x := p[n];
      forall y | y in p[..n] ensures y in pool - {x} {
        assert y in p;
      }
      Pigeonhole(p[..n], pool - {x});
    }
  }

  /** A list has no repeats exactly when it is as long as its set of elements is large. */
  lemma {:induction false} NoDupSize<T>(s: seq<T>)
    ensures |Elems(s)| <= |s|
    ensures NoDup(s) <==> |Elems(s)| == |s|
  {
    if s != [] {
      var n := |s| - 1;
      NoDupSize(s[..n]);
      assert Elems(s) == Elems(s[..n]) + {s[n]};
      if s[n] in s[..n] {
        assert Elems(s) == Elems(s[..n]);
      } else {
        assert NoDup(s[..n]) ==> NoDup(s);
        assert forall i :: 0 <= i < n ==> s[..n][i] == s[i];
      }
    }
  }
}
