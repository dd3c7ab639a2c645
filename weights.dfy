/**
 * Weight dictionaries. A Python dict keeps its keys in insertion order, so a
 * weight map is an ordered sequence of entries with distinct factor names;
 * `d[k] = v` replaces an existing entry in place and appends a new one.
 * Normalisation divides every weight by the dictionary's total, or sets every
 * weight to 0 when that total is not positive.
 */
module Weights {

  datatype Entry = Entry(factor: string, weight: real)

  type Dict = seq<Entry>

  /** The keys of `d` in iteration order. */
  function Keys(d: Dict): seq<string>
  {
    seq(|d|, i requires 0 <= i < |d| => d[i].factor)
  }

  /** A Python dict never holds the same key twice. */
  predicate UniqueKeys(d: Dict)
  {
    forall i, j :: 0 <= i < j < |d| ==> d[i].factor != d[j].factor
  }

  /** Every weight lies in `[lo, hi]`. */
  predicate AllWithin(d: Dict, lo: real, hi: real)
  {
    forall i :: 0 <= i < |d| ==> lo <= d[i].weight <= hi
  }

  /** `d.get(k, default)`. */
  function Get(d: Dict, k: string, default: real): real
  {
    if d == [] then default
    else if d[0].factor == k then d[0].weight
    else Get(d[1..], k, default)
  }

  /** `get` gives the default exactly for an absent key, and otherwise the key's own weight. */
  lemma {:induction false} GetSpec(d: Dict, k: string, default: real)
    ensures k !in Keys(d) ==> Get(d, k, default) == default
    ensures UniqueKeys(d) ==> forall i :: 0 <= i < |d| && d[i].factor == k ==> Get(d, k, default) == d[i].weight
  {
    if d != [] {
      GetSpec(d[1..], k, default);
      assert Keys(d) == [d[0].factor] + Keys(d[1..]);
      if UniqueKeys(d) {
        assert UniqueKeys(d[1..]) by {
          forall i, j | 0 <= i < j < |d[1..]| ensures d[1..][i].factor != d[1..][j].factor {
            assert d[1..][i] == d[i + 1] && d[1..][j] == d[j + 1];
          }
        }
        forall i | 0 <= i < |d| && d[i].factor == k ensures Get(d, k, default) == d[i].weight {
          if i > 0 {
            assert d[1..][i - 1] == d[i];
          }
        }
      }
    }
  }

  /** `d[k] = v`: the entry for `k` is replaced where it stands, or appended. */
  function Put(d: Dict, k: string, v: real): Dict
  {
    if d == [] then [Entry(k, v)]
    else if d[0].factor == k then [Entry(k, v)] + d[1..]
    else [d[0]] + Put(d[1..], k, v)
  }

  /** Assignment keeps the keys and their order, appending `k` when it is new. */
  lemma {:induction false} PutKeys(d: Dict, k: string, v: real)
    ensures k in Keys(d) ==> Keys(Put(d, k, v)) == Keys(d)
    ensures k !in Keys(d) ==> Keys(Put(d, k, v)) == Keys(d) + [k]
  {
    if d != [] {
      assert Keys(d) == [d[0].factor] + Keys(d[1..]);
      if d[0].factor != k {
        PutKeys(d[1..], k, v);
        assert Keys(Put(d, k, v)) == [d[0].factor] + Keys(Put(d[1..], k, v));
      } else {
        assert Keys(Put(d, k, v)) == [k] + Keys(d[1..]);
      }
    }
  }

  /** Assignment never duplicates a key. */
  lemma PutUnique(d: Dict, k: string, v: real)
    requires UniqueKeys(d)
    ensures UniqueKeys(Put(d, k, v))
  {
    var r := Put(d, k, v);
    PutKeys(d, k, v);
    forall i, j | 0 <= i < j < |r| ensures r[i].factor != r[j].factor {
      assert Keys(r)[i] == r[i].factor && Keys(r)[j] == r[j].factor;
      assert Keys(d)[..] == Keys(d);
      if j < |d| {
        assert Keys(d)[i] == d[i].factor && Keys(d)[j] == d[j].factor;
      }
    }
  }

  /** After `d[k] = v`, looking `k` up gives `v`. */
  lemma {:induction false} GetPut(d: Dict, k: string, v: real, x: real)
    ensures Get(Put(d, k, v), k, x) == v
  {
    if d != [] && d[0].factor != k {
      GetPut(d[1..], k, v, x);
      assert Put(d, k, v)[1..] == Put(d[1..], k, v);
    }
  }

  /** `d[k] = v` leaves the lookup of every other key as it was. */
  lemma {:induction false} GetPutOther(d: Dict, k: string, v: real, k': string, x: real)
    requires k' != k
    ensures Get(Put(d, k, v), k', x) == Get(d, k', x)
  {
    if d != [] && d[0].factor != k {
      assert Put(d, k, v)[1..] == Put(d[1..], k, v);
      if d[0].factor != k' {
        GetPutOther(d[1..], k, v, k', x);
      }
    } else if d != [] {
      assert Put(d, k, v)[1..] == d[1..];
    }
  }

  /** `sum(d.values())`. */
  function Total(d: Dict): real
  {
    if d == [] then 0.0 else d[0].weight + Total(d[1..])
  }

  /** Every weight multiplied by `c`, keys and order unchanged. */
  function Scale(d: Dict, c: real): (r: Dict)
    ensures |r| == |d| && Keys(r) == Keys(d)
    ensures forall i :: 0 <= i < |d| ==> r[i] == Entry(d[i].factor, d[i].weight * c)
  {
    if d == [] then [] else [Entry(d[0].factor, d[0].weight * c)] + Scale(d[1..], c)
  }

  /** Every weight divided by `t`, keys and order unchanged. */
  function Divide(d: Dict, t: real): (r: Dict)
    requires t != 0.0
    ensures |r| == |d| && Keys(r) == Keys(d)
    ensures forall i :: 0 <= i < |d| ==> r[i] == Entry(d[i].factor, d[i].weight / t)
  {
    if d == [] then [] else [Entry(d[0].factor, d[0].weight / t)] + Divide(d[1..], t)
  }

  /**
   * The normalised dictionary: each weight divided by the total, or 0 when the
   * total is not positive; keys and their order are kept.
   */
  function Normalize(d: Dict): (r: Dict)
    ensures |r| == |d| && Keys(r) == Keys(d)
  {
    var t := Total(d);
    if t > 0.0 then Divide(d, t) else Zeroed(d)
  }

  /** Every weight replaced by 0, keys and order unchanged. */
  function Zeroed(d: Dict): (r: Dict)
    ensures |r| == |d| && Keys(r) == Keys(d)
    ensures forall i :: 0 <= i < |d| ==> r[i] == Entry(d[i].factor, 0.0)
  {
    if d == [] then [] else [Entry(d[0].factor, 0.0)] + Zeroed(d[1..])
  }

  /** Scaling every weight scales the total. */
  lemma {:induction false} TotalScale(d: Dict, c: real)
    ensures Total(Scale(d, c)) == Total(d) * c
  {
    if d != [] {
      TotalScale(d[1..], c);
      assert Scale(d, c)[1..] == Scale(d[1..], c);
    }
  }

  /** Dividing every weight divides the total. */
  lemma {:induction false} TotalDivide(d: Dict, t: real)
    requires t != 0.0
    ensures Total(Divide(d, t)) == Total(d) / t
  {
    if d != [] {
      TotalDivide(d[1..], t);
      assert Divide(d, t)[1..] == Divide(d[1..], t);
      SumQuotient(d[0].weight, Total(d[1..]), t);
    }
  }

  lemma SumQuotient(a: real, b: real, t: real)
    requires t != 0.0
    ensures (a + b) / t == a / t + b / t
  {
  }

  /** With non-negative weights each weight is at most the total. */
  lemma {:induction false} WeightBelowTotal(d: Dict, i: int)
    requires AllWithin(d, 0.0, 0.5)
    requires 0 <= i < |d|
    ensures 0.0 <= d[i].weight <= Total(d)
    ensures 0.0 <= Total(d)
  {
    if i == 0 {
      TotalNonNegative(d[1..]);
    } else {
      WeightBelowTotal(d[1..], i - 1);
    }
  }

  lemma {:induction false} TotalNonNegative(d: Dict)
    requires AllWithin(d, 0.0, 0.5)
    ensures Total(d) >= 0.0
  {
    if d != [] { TotalNonNegative(d[1..]); }
  }

  /** For weights in the slider range, the total is 0 exactly when every weight is 0. */
  lemma {:induction false} TotalZeroIff(d: Dict)
    requires AllWithin(d, 0.0, 0.5)
    ensures Total(d) == 0.0 <==> AllWithin(d, 0.0, 0.0)
  {
    if d != [] {
      TotalZeroIff(d[1..]);
      TotalNonNegative(d[1..]);
    }
  }

  lemma QuotientBounds(x: real, t: real)
    requires t > 0.0 && 0.0 <= x <= t
    ensures 0.0 <= x / t <= 1.0
  {
  }

  lemma SelfQuotient(t: real)
    requires t != 0.0
    ensures t / t == 1.0
  {
  }

  lemma ProductSign(t: real, c: real)
    requires c > 0.0
    ensures t > 0.0 <==> t * c > 0.0
  {
  }

  lemma QuotientScale(x: real, t: real, c: real)
    requires t > 0.0 && c > 0.0
    ensures (x * c) / (t * c) == x / t
  {
  }

  /**
   * A positive total: each normalised weight is its raw weight over the total,
   * and the normalised weights add up to 1.
   */
  lemma NormalizePositive(d: Dict)
    requires Total(d) > 0.0
    ensures forall i :: 0 <= i < |d| ==> Normalize(d)[i].weight == d[i].weight / Total(d)
    ensures Total(Normalize(d)) == 1.0
  {
    TotalDivide(d, Total(d));
    SelfQuotient(Total(d));
  }

  /** For slider weights the normalised weights lie in [0, 1]. */
  lemma NormalizeBounds(d: Dict)
    requires AllWithin(d, 0.0, 0.5)
    ensures AllWithin(Normalize(d), 0.0, 1.0)
  {
    var t := Total(d);
    forall i | 0 <= i < |d| ensures 0.0 <= Normalize(d)[i].weight <= 1.0 {
      WeightBelowTotal(d, i);
      if t > 0.0 {
        QuotientBounds(d[i].weight, t);
      }
    }
  }

  /** A total that is not positive (every slider at 0): every normalised weight is 0. */
  lemma NormalizeNotPositive(d: Dict)
    requires Total(d) <= 0.0
    ensures AllWithin(Normalize(d), 0.0, 0.0)
    ensures Total(Normalize(d)) == 0.0
  {
    ZeroedTotal(d);
  }

  lemma {:induction false} ZeroedTotal(d: Dict)
    ensures Total(Zeroed(d)) == 0.0
  {
    if d != [] {
      ZeroedTotal(d[1..]);
      assert Zeroed(d)[1..] == Zeroed(d[1..]);
    }
  }

  /** Normalisation divides out a common positive factor of the raw weights. */
  lemma ScaleInvariant(d: Dict, c: real)
    requires c > 0.0
    ensures Normalize(Scale(d, c)) == Normalize(d)
  {
    var t, sd := Total(d), Scale(d, c);
    TotalScale(d, c);
    ProductSign(t, c);
    if t > 0.0 {
      NormalizeIsDivide(d);
      NormalizeIsDivide(sd);
      DivideScale(d, t, c);
      assert Total(sd) == t * c;
      assert Normalize(sd) == Divide(sd, t * c);
    } else {
      NormalizeIsZeroed(d);
      NormalizeIsZeroed(sd);
      ZeroedScale(d, c);
    }
  }

  lemma NormalizeIsDivide(d: Dict)
    requires Total(d) > 0.0
    ensures Normalize(d) == Divide(d, Total(d))
  {
  }

  lemma NormalizeIsZeroed(d: Dict)
    requires Total(d) <= 0.0
    ensures Normalize(d) == Zeroed(d)
  {
  }

  lemma ZeroedScale(d: Dict, c: real)
    ensures Zeroed(Scale(d, c)) == Zeroed(d)
  {
    var a, b := Zeroed(Scale(d, c)), Zeroed(d);
    assert |a| == |b|;
    forall i | 0 <= i < |d| ensures a[i] == b[i] {
    }
  }

  lemma DivideScale(d: Dict, t: real, c: real)
    requires t > 0.0 && c > 0.0
    ensures Divide(Scale(d, c), t * c) == Divide(d, t)
  {
    var a, b := Divide(Scale(d, c), t * c), Divide(d, t);
    forall i | 0 <= i < |d| ensures a[i] == b[i] {
      DivideScaleAt(d, t, c, i);
    }
  }

  lemma DivideScaleAt(d: Dict, t: real, c: real, i: int)
    requires t > 0.0 && c > 0.0 && 0 <= i < |d|
    ensures Divide(Scale(d, c), t * c)[i] == Divide(d, t)[i]
  {
    var sd, u := Scale(d, c), t * c;
    var w, sw := d[i].weight, sd[i].weight;
    assert sw == w * c;
    ScaledQuotient(w, sw, t, u, c);
    assert Divide(sd, u)[i] == Entry(d[i].factor, sw / u);
  }

  lemma ScaledQuotient(w: real, sw: real, t: real, u: real, c: real)
    requires t > 0.0 && c > 0.0 && sw == w * c && u == t * c
    ensures sw / u == w / t
  {
    QuotientScale(w, t, c);
  }
}
