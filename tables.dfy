/**
 * Preparation of the district table (`load_data`): the crime table is read
 * with every missing cell filled by 0, the aggregate row named "소계" is
 * dropped, every map feature gets the last token of its administrative name
 * as join key, and the two tables are joined on that key (inner join).
 */
module Tables {
  import opened Values
  import opened Tokens

  /** The name of the aggregate row of the crime table. */
  const SUBTOTAL: string := "소계"

  /** One row of the crime table: the district name and its numeric columns. */
  datatype CrimeRecord = CrimeRecord(dong: string, cells: map<string, Value>)

  /** One feature of the map layer; its geometry is not modelled. */
  datatype Feature = Feature(admNm: string)

  /**
   * The map layer as read from the GeoJSON file. `hasAdmNm` says whether the
   * file carried the `adm_nm` column at all.
   */
  datatype GeoLayer = GeoLayer(hasAdmNm: bool, features: seq<Feature>)

  /** One row of the joined table: map feature, its key and the crime columns. */
  datatype District = District(admNm: string, key: string, dong: string, cells: map<string, Value>)

  /** `fillna(0)` over the whole crime table. */
  function FillNaTable(rows: seq<CrimeRecord>): (r: seq<CrimeRecord>)
    ensures |r| == |rows|
    ensures forall i :: 0 <= i < |r| ==> r[i].dong == rows[i].dong && r[i].cells == FillNaCells(rows[i].cells)
  {
    seq(|rows|, i requires 0 <= i < |rows| => CrimeRecord(rows[i].dong, FillNaCells(rows[i].cells)))
  }

  /** `crime_data[crime_data['행정동'] != '소계']`: keeps every other row, in order. */
  function DropSubtotal(rows: seq<CrimeRecord>): (r: seq<CrimeRecord>)
    ensures |r| <= |rows|
    ensures forall x :: x in r <==> x in rows && x.dong != SUBTOTAL
  {
    if rows == [] then []
    else if rows[0].dong == SUBTOTAL then DropSubtotal(rows[1..])
    else [rows[0]] + DropSubtotal(rows[1..])
  }

  /** A table without the subtotal row passes through unchanged. */
  lemma {:induction false} DropSubtotalIdentity(rows: seq<CrimeRecord>)
    requires forall x :: x in rows ==> x.dong != SUBTOTAL
    ensures DropSubtotal(rows) == rows
  {
    if rows != [] {
      DropSubtotalIdentity(rows[1..]);
      assert rows == [rows[0]] + rows[1..];
    }
  }

  /**
   * The filter works row by row: filtering two parts and concatenating the
   * results is filtering the whole, so the kept rows keep their relative order.
   */
  lemma {:induction false} DropSubtotalAppend(a: seq<CrimeRecord>, b: seq<CrimeRecord>)
    ensures DropSubtotal(a + b) == DropSubtotal(a) + DropSubtotal(b)
  {
    if a != [] {
      var t := a + b;
      assert t != [] && t[0] == a[0] && t[1..] == a[1..] + b;
      DropSubtotalAppend(a[1..], b);
      var x, y := DropSubtotal(a[1..]), DropSubtotal(b);
      if a[0].dong != SUBTOTAL {
        assert [a[0]] + (x + y) == ([a[0]] + x) + y;
      }
    } else {
      assert a + b == b;
    }
  }

  /** The rows of `rs` whose key equals `k`, paired with `l`, in the order of `rs`. */
  function Matches<L(!new), R(==,!new)>(l: L, k: Option<string>, rs: seq<R>, rk: R -> string): (r: seq<(L, R)>)
    ensures forall p :: p in r <==> p.0 == l && p.1 in rs && k == Some(rk(p.1))
  {
    if rs == [] then []
    else if k == Some(rk(rs[0])) then [(l, rs[0])] + Matches(l, k, rs[1..], rk)
    else Matches(l, k, rs[1..], rk)
  }

  /**
   * pandas' inner merge: for each left row in order, every right row with the
   * same key in its order. A left row whose key is NaN (`None`) matches nothing.
   */
  function InnerJoin<L(==,!new), R(==,!new)>(ls: seq<L>, rs: seq<R>, lk: L -> Option<string>, rk: R -> string): (r: seq<(L, R)>)
    ensures forall p :: p in r <==> p.0 in ls && p.1 in rs && lk(p.0) == Some(rk(p.1))
  {
    if ls == [] then []
    else Matches(ls[0], lk(ls[0]), rs, rk) + InnerJoin(ls[1..], rs, lk, rk)
  }

  /**
   * `Matches` works through the right table row by row: matching the two parts
   * of a table and concatenating gives the matches of the whole, so the pairs
   * come in right-table order.
   */
  lemma {:induction false} MatchesAppend<L(!new), R(!new)>(l: L, k: Option<string>, a: seq<R>, b: seq<R>, rk: R -> string)
    ensures Matches(l, k, a + b, rk) == Matches(l, k, a, rk) + Matches(l, k, b, rk)
  {
    if a != [] {
      var t := a + b;
      assert t != [] && t[0] == a[0] && t[1..] == a[1..] + b;
      MatchesAppend(l, k, a[1..], b, rk);
      var x, y := Matches(l, k, a[1..], rk), Matches(l, k, b, rk);
      if k == Some(rk(a[0])) {
        assert [(l, a[0])] + (x + y) == ([(l, a[0])] + x) + y;
      }
    } else {
      assert a + b == b;
    }
  }

  /** A single right row is matched once when its key equals `k`, and otherwise not at all. */
  lemma MatchesSingle<L(!new), R(!new)>(l: L, k: Option<string>, x: R, rk: R -> string)
    ensures Matches(l, k, [x], rk) == if k == Some(rk(x)) then [(l, x)] else []
  {
    assert [x][1..] == [];
  }

  /**
   * The merge works through the left table row by row: the merge of two parts,
   * concatenated, is the merge of the whole, so left rows keep their order.
   */
  lemma {:induction false} InnerJoinAppend<L(!new), R(!new)>(a: seq<L>, b: seq<L>, rs: seq<R>, lk: L -> Option<string>, rk: R -> string)
    ensures InnerJoin(a + b, rs, lk, rk) == InnerJoin(a, rs, lk, rk) + InnerJoin(b, rs, lk, rk)
  {
    if a != [] {
      var t := a + b;
      assert t != [] && t[0] == a[0] && t[1..] == a[1..] + b;
      InnerJoinAppend(a[1..], b, rs, lk, rk);
      var m, x, y := Matches(a[0], lk(a[0]), rs, rk), InnerJoin(a[1..], rs, lk, rk), InnerJoin(b, rs, lk, rk);
      assert m + (x + y) == (m + x) + y;
    } else {
      assert a + b == b;
    }
  }

  /** A single left row contributes exactly its matches, in right-table order. */
  lemma InnerJoinSingle<L(!new), R(!new)>(l: L, rs: seq<R>, lk: L -> Option<string>, rk: R -> string)
    ensures InnerJoin([l], rs, lk, rk) == Matches(l, lk(l), rs, rk)
  {
    assert [l][1..] == [];
    assert Matches(l, lk(l), rs, rk) + [] == Matches(l, lk(l), rs, rk);
  }

  /** A joined row: the feature's columns, its key, and the crime row's columns. */
  function Combine(p: (Feature, CrimeRecord)): District
  {
    District(p.0.admNm, p.1.dong, p.1.dong, p.1.cells)
  }

  function FeatureKey(f: Feature): Option<string>
  {
    LastToken(f.admNm)
  }

  function RecordKey(c: CrimeRecord): string
  {
    c.dong
  }

  /** `Combine` applied to every joined pair, in order. */
  function CombineAll(pairs: seq<(Feature, CrimeRecord)>): (r: seq<District>)
    ensures |r| == |pairs|
    ensures forall i :: 0 <= i < |r| ==> r[i] == Combine(pairs[i])
  {
    if pairs == [] then [] else [Combine(pairs[0])] + CombineAll(pairs[1..])
  }

  /** Whether `d` is the join of some feature and some crime row with matching keys. */
  ghost predicate JoinedFrom(d: District, features: seq<Feature>, crime: seq<CrimeRecord>)
  {
    exists f, c :: f in features && c in crime && LastToken(f.admNm) == Some(c.dong) && d == Combine((f, c))
  }

  /** The feature/crime pairs with matching keys, in pandas' merge order. */
  function JoinPairs(features: seq<Feature>, crime: seq<CrimeRecord>): (r: seq<(Feature, CrimeRecord)>)
    ensures forall p :: p in r <==> p.0 in features && p.1 in crime && LastToken(p.0.admNm) == Some(p.1.dong)
  {
    InnerJoin(features, crime, FeatureKey, RecordKey)
  }

  /** The merge of the map layer with the prepared crime table. */
  function JoinDistricts(features: seq<Feature>, crime: seq<CrimeRecord>): (r: seq<District>)
    ensures forall d :: d in r <==> JoinedFrom(d, features, crime)
  {
    var pairs := JoinPairs(features, crime);
    var r := CombineAll(pairs);
    JoinSound(features, crime, pairs, r);
    JoinComplete(features, crime, pairs, r);
    r
  }

  lemma JoinSound(features: seq<Feature>, crime: seq<CrimeRecord>, pairs: seq<(Feature, CrimeRecord)>, r: seq<District>)
    requires pairs == JoinPairs(features, crime) && r == CombineAll(pairs)
    ensures forall d :: d in r ==> JoinedFrom(d, features, crime)
  {
    forall d | d in r ensures JoinedFrom(d, features, crime) {
      var i :| 0 <= i < |r| && r[i] == d;
      assert pairs[i] in pairs;
      var f, c := pairs[i].0, pairs[i].1;
      assert f in features && c in crime && LastToken(f.admNm) == Some(c.dong) && d == Combine((f, c));
    }
  }

  lemma JoinComplete(features: seq<Feature>, crime: seq<CrimeRecord>, pairs: seq<(Feature, CrimeRecord)>, r: seq<District>)
    requires pairs == JoinPairs(features, crime) && r == CombineAll(pairs)
    ensures forall d :: JoinedFrom(d, features, crime) ==> d in r
  {
    forall d | JoinedFrom(d, features, crime) ensures d in r {
      var f, c :| f in features && c in crime && LastToken(f.admNm) == Some(c.dong) && d == Combine((f, c));
      assert (f, c) in pairs;
      var i :| 0 <= i < |pairs| && pairs[i] == (f, c);
      assert r[i] == d;
    }
  }

  /**
   * `load_data`: `None` when either file is missing (FileNotFoundError) or the
   * map layer lacks the `adm_nm` column; otherwise the joined table.
   */
  function LoadData(crimeFile: Option<seq<CrimeRecord>>, mapFile: Option<GeoLayer>): (r: Option<seq<District>>)
    ensures r.Some? <==> crimeFile.Some? && mapFile.Some? && mapFile.value.hasAdmNm
    ensures r.Some? ==> forall d :: d in r.value <==>
      JoinedFrom(d, mapFile.value.features, DropSubtotal(FillNaTable(crimeFile.value)))
  {
    if crimeFile.None? then None
    else
      var crime := DropSubtotal(FillNaTable(crimeFile.value));
      if mapFile.None? || !mapFile.value.hasAdmNm then None
      else Some(JoinDistricts(mapFile.value.features, crime))
  }

  /**
   * What the loaded table guarantees: no subtotal row, every key is the last
   * token of its feature's name and equals the district name, every cell is a
   * number, and every row comes from a feature and a crime row of the inputs.
   */
  lemma {:induction false} LoadDataShape(crimeFile: seq<CrimeRecord>, mapFile: GeoLayer, d: District)
    requires mapFile.hasAdmNm
    requires d in LoadData(Some(crimeFile), Some(mapFile)).value
    ensures d.dong != SUBTOTAL
    ensures LastToken(d.admNm) == Some(d.key) && d.key == d.dong
    ensures forall c :: c in d.cells ==> d.cells[c].Num?
    ensures exists f :: f in mapFile.features && f.admNm == d.admNm
    ensures exists c :: c in crimeFile && c.dong == d.dong && c.cells.Keys == d.cells.Keys
  {
    var filled := FillNaTable(crimeFile);
    var f, c :| f in mapFile.features && c in DropSubtotal(filled)
                && LastToken(f.admNm) == Some(c.dong) && d == Combine((f, c));
    assert c in filled;
    var i :| 0 <= i < |filled| && filled[i] == c;
    assert crimeFile[i] in crimeFile;
  }
}
