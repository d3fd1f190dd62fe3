/** Dynamic task mapping: the cross product of the expand lists. */
module Mapped {
  import opened Prelude

  datatype XVal = XNull | XBool(b: bool) | XInt(n: int) | XText(s: string) | XList(items: seq<XVal>)

  type Key = string

  /** `itertools.product`: the last list varies fastest. */
  function Product<T>(lists: seq<seq<T>>): seq<seq<T>> {
    if lists == [] then [[]]
    else
      var n := |lists| - 1;
      Extend(Product(lists[..n]), lists[n])
  }

  /** Every prefix followed by every item, prefixes outermost. */
  function Extend<T>(prefixes: seq<seq<T>>, items: seq<T>): seq<seq<T>> {
    if prefixes == [] then []
    else Extend(prefixes[..|prefixes| - 1], items) + AppendEach(prefixes[|prefixes| - 1], items)
  }

  function AppendEach<T>(prefix: seq<T>, items: seq<T>): seq<seq<T>> {
    seq(|items|, i requires 0 <= i < |items| => prefix + [items[i]])
  }

  /** The loops behind `itertools.product`. */
  method CrossProduct<T>(lists: seq<seq<T>>) returns (combos: seq<seq<T>>)
    ensures combos == Product(lists)
  {
    combos := [[]];
    for k := 0 to |lists|
      invariant combos == Product(lists[..k])
    {
      assert lists[..k + 1][..k] == lists[..k];
      var next: seq<seq<T>> := [];
      for i := 0 to |combos|
        invariant next == Extend(combos[..i], lists[k])
      {
        assert combos[..i + 1][..i] == combos[..i];
        next := next + AppendEach(combos[i], lists[k]);
      }
      assert combos[..|combos|] == combos;
      combos := next;
    }
    assert lists[..|lists|] == lists;
  }

  // ---------- how many, and how often each ----------

  function SizeProduct<T>(lists: seq<seq<T>>): nat {
    if lists == [] then 1 else SizeProduct(lists[..|lists| - 1]) * |lists[|lists| - 1]|
  }

  lemma {:induction false} ExtendSize<T>(prefixes: seq<seq<T>>, items: seq<T>)
    ensures |Extend(prefixes, items)| == |prefixes| * |items|
  {
    if prefixes != [] {
      var n := |prefixes| - 1;
      ExtendSize(prefixes[..n], items);
      assert (n + 1) * |items| == n * |items| + |items|;
    }
  }

  /** A mapped task has as many instances as the product of its list lengths. */
  lemma {:induction false} ProductSize<T>(lists: seq<seq<T>>)
    ensures |Product(lists)| == SizeProduct(lists)
  {
    if lists != [] {
      ProductSize(lists[..|lists| - 1]);
      ExtendSize(Product(lists[..|lists| - 1]), lists[|lists| - 1]);
    }
  }

  /** In how many ways the combination can be picked: how often each component occurs in its list, multiplied. */
  function Ways<T(==)>(combo: seq<T>, lists: seq<seq<T>>): nat {
    if |combo| != |lists| then 0
    else if lists == [] then 1
    else
      var n := |lists| - 1;
      Ways(combo[..n], lists[..n]) * Occ(combo[n], lists[n])
  }

  lemma {:induction false} OccConcat<T>(x: T, a: seq<T>, b: seq<T>)
    ensures Occ(x, a + b) == Occ(x, a) + Occ(x, b)
  {
    if b == [] {
      assert a + b == a;
    } else {
      OccConcat(x, a, b[..|b| - 1]);
      assert (a + b)[..|a + b| - 1] == a + b[..|b| - 1];
    }
  }

  lemma {:induction false} AppendEachOcc<T>(combo: seq<T>, prefix: seq<T>, items: seq<T>)
    ensures Occ(combo, AppendEach(prefix, items)) ==
            if combo != [] && combo[..|combo| - 1] == prefix then Occ(combo[|combo| - 1], items) else 0
  {
    if items != [] {
      var n := |items| - 1;
      AppendEachOcc(combo, prefix, items[..n]);
      assert AppendEach(prefix, items)[..n] == AppendEach(prefix, items[..n]);
      var last := prefix + [items[n]];
      assert last[..|last| - 1] == prefix && last[|last| - 1] == items[n];
      if combo != [] && combo[..|combo| - 1] == prefix && combo[|combo| - 1] == items[n] {
        assert combo == last;
      }
    }
  }

  lemma OneMore(a: nat, b: nat)
    ensures (a + 1) * b == a * b + b
  {
  }

  lemma {:induction false} ExtendOcc<T>(combo: seq<T>, prefixes: seq<seq<T>>, items: seq<T>)
    ensures Occ(combo, Extend(prefixes, items)) ==
            if combo == [] then 0 else Occ(combo[..|combo| - 1], prefixes) * Occ(combo[|combo| - 1], items)
  {
    if prefixes != [] {
      var n := |prefixes| - 1;
      ExtendOcc(combo, prefixes[..n], items);
      OccConcat(combo, Extend(prefixes[..n], items), AppendEach(prefixes[n], items));
      AppendEachOcc(combo, prefixes[n], items);
      if combo != [] {
        var a, b := Occ(combo[..|combo| - 1], prefixes[..n]), Occ(combo[|combo| - 1], items);
        OneMore(a, b);
      }
    }
  }

  /** Every combination is run exactly as often as it can be picked: once each for lists without repeats. */
  lemma {:induction false} ProductCovers<T>(combo: seq<T>, lists: seq<seq<T>>)
    ensures Occ(combo, Product(lists)) == Ways(combo, lists)
    decreases |lists|
  {
    if lists == [] {
      var unit: seq<seq<T>> := [[]];
      assert unit[..0] == [];
    } else {
      var n := |lists| - 1;
      ExtendOcc(combo, Product(lists[..n]), lists[n]);
      if combo != [] {
        ProductCovers(combo[..|combo| - 1], lists[..n]);
        if |combo| != |lists| {
          assert Ways(combo[..|combo| - 1], lists[..n]) == 0;
        }
      }
    }
  }
}
