/**
 * Score aggregation of the net-risk tab: per district, the total risk is the
 * sum of each risk factor's value times its normalised weight, the total
 * safety likewise over the safety factors, and the net risk their difference.
 * A missing value counts as 0. The three results are written into the shared
 * district table as new columns.
 */
module Scoring {
  import opened Values
  import opened Weights
  import opened Tables

  const TOTAL_RISK: string := "총위험도"
  const TOTAL_SAFETY: string := "총안전도"
  const NET_RISK: string := "순위험도"

  /** Every factor of `w` is a column of the row (pandas raises KeyError otherwise). */
  predicate Covers(w: Dict, cells: map<string, Value>)
  {
    forall i :: 0 <= i < |w| ==> w[i].factor in cells
  }

  /** `sum(row[f].fillna(0) * w for f, w in weights.items())` for one row. */
  function WeightedTotal(w: Dict, cells: map<string, Value>): real
    requires Covers(w, cells)
  {
    if w == [] then 0.0
    else w[0].weight * AsReal(cells[w[0].factor]) + WeightedTotal(w[1..], cells)
  }

  /** Two rows that agree on the factors of `w` (after `fillna(0)`) have the same total. */
  lemma {:induction false} TotalDependsOnFactorsOnly(w: Dict, c1: map<string, Value>, c2: map<string, Value>)
    requires Covers(w, c1) && Covers(w, c2)
    requires forall i :: 0 <= i < |w| ==> AsReal(c1[w[i].factor]) == AsReal(c2[w[i].factor])
    ensures WeightedTotal(w, c1) == WeightedTotal(w, c2)
  {
    if w != [] {
      TotalDependsOnFactorsOnly(w[1..], c1, c2);
    }
  }

  /** A missing factor value contributes exactly as a 0 would. */
  lemma MissingCountsAsZero(w: Dict, cells: map<string, Value>, f: string)
    requires Covers(w, cells)
    ensures Covers(w, cells[f := NaN]) && Covers(w, cells[f := Num(0.0)])
    ensures WeightedTotal(w, cells[f := NaN]) == WeightedTotal(w, cells[f := Num(0.0)])
  {
    TotalDependsOnFactorsOnly(w, cells[f := NaN], cells[f := Num(0.0)]);
  }

  /** All-zero weights give a zero total, whatever the row holds. */
  lemma {:induction false} ZeroWeightsZeroTotal(w: Dict, cells: map<string, Value>)
    requires Covers(w, cells) && AllWithin(w, 0.0, 0.0)
    ensures WeightedTotal(w, cells) == 0.0
  {
    if w != [] {
      ZeroWeightsZeroTotal(w[1..], cells);
    }
  }

  /**
   * When a category's raw weights total 0 (every slider at 0), its normalised
   * weights are all 0 and its total is 0 for every district.
   */
  lemma ZeroCategoryContributesNothing(raw: Dict, cells: map<string, Value>)
    requires AllWithin(raw, 0.0, 0.5) && Total(raw) == 0.0
    requires Covers(raw, cells)
    ensures Covers(Normalize(raw), cells)
    ensures WeightedTotal(Normalize(raw), cells) == 0.0
  {
    NormalizeNotPositive(raw);
    ZeroWeightsZeroTotal(Normalize(raw), cells);
  }

  /** Multiplying every raw weight of a category by c > 0 leaves every district's total unchanged. */
  lemma TotalScaleInvariant(raw: Dict, c: real, cells: map<string, Value>)
    requires c > 0.0 && Covers(raw, cells)
    ensures Covers(Normalize(Scale(raw, c)), cells) && Covers(Normalize(raw), cells)
    ensures WeightedTotal(Normalize(Scale(raw, c)), cells) == WeightedTotal(Normalize(raw), cells)
  {
    ScaleInvariant(raw, c);
  }

  /** No factor is named like a score column. */
  predicate NoScoreFactor(w: Dict)
  {
    forall i :: 0 <= i < |w| ==> w[i].factor !in {TOTAL_RISK, TOTAL_SAFETY, NET_RISK}
  }

  /** `gdf['총위험도'] = ...` for one row. */
  function WithRisk(d: District, nr: Dict): (r: District)
    requires Covers(nr, d.cells)
    ensures r.cells.Keys == d.cells.Keys + {TOTAL_RISK}
  {
    d.(cells := d.cells[TOTAL_RISK := Num(WeightedTotal(nr, d.cells))])
  }

  /** `gdf['총안전도'] = ...` for one row. */
  function WithSafety(d: District, ns: Dict): (r: District)
    requires Covers(ns, d.cells)
    ensures r.cells.Keys == d.cells.Keys + {TOTAL_SAFETY}
  {
    d.(cells := d.cells[TOTAL_SAFETY := Num(WeightedTotal(ns, d.cells))])
  }

  /** `gdf['순위험도'] = gdf['총위험도'] - gdf['총안전도']` for one row. */
  function WithNet(d: District): District
    requires TOTAL_RISK in d.cells && TOTAL_SAFETY in d.cells
  {
    d.(cells := d.cells[NET_RISK := Num(AsReal(d.cells[TOTAL_RISK]) - AsReal(d.cells[TOTAL_SAFETY]))])
  }

  /**
   * The three column writes for one row, in the order the program makes them:
   * the score columns are added, net risk is total risk minus total safety,
   * and every other column is kept.
   */
  function ScoreDistrict(d: District, nr: Dict, ns: Dict): (r: District)
    requires Covers(nr, d.cells) && Covers(ns, d.cells)
    ensures r.admNm == d.admNm && r.key == d.key && r.dong == d.dong
    ensures r.cells.Keys == d.cells.Keys + {TOTAL_RISK, TOTAL_SAFETY, NET_RISK}
    ensures AsReal(r.cells[NET_RISK]) == AsReal(r.cells[TOTAL_RISK]) - AsReal(r.cells[TOTAL_SAFETY])
    ensures forall k :: k in d.cells && k !in {TOTAL_RISK, TOTAL_SAFETY, NET_RISK} ==> r.cells[k] == d.cells[k]
  {
    WithNet(WithSafety(WithRisk(d, nr), ns))
  }

  /**
   * For factors that are not score columns, the written totals are the
   * weighted sums over the row as loaded, and the net risk is their difference.
   */
  lemma ScoreDistrictValues(d: District, nr: Dict, ns: Dict)
    requires Covers(nr, d.cells) && Covers(ns, d.cells) && NoScoreFactor(ns)
    ensures ScoreDistrict(d, nr, ns).cells[TOTAL_RISK] == Num(WeightedTotal(nr, d.cells))
    ensures ScoreDistrict(d, nr, ns).cells[TOTAL_SAFETY] == Num(WeightedTotal(ns, d.cells))
    ensures ScoreDistrict(d, nr, ns).cells[NET_RISK] == Num(WeightedTotal(nr, d.cells) - WeightedTotal(ns, d.cells))
  {
    TotalDependsOnFactorsOnly(ns, WithRisk(d, nr).cells, d.cells);
  }

  /** Every row of the table has every factor of `w` as a column. */
  predicate TableCovers(rows: seq<District>, w: Dict)
  {
    forall i :: 0 <= i < |rows| ==> Covers(w, rows[i].cells)
  }

  /** The joined district table (`gdf`), whose columns the tabs overwrite in place. */
  class DistrictFrame {
    var rows: seq<District>

    constructor (loaded: seq<District>)
      ensures rows == loaded
    {
      rows := loaded;
    }

    /** Writes the total risk, total safety and net risk columns, one column after another. */
    method AssignScores(nr: Dict, ns: Dict)
      requires TableCovers(rows, nr) && TableCovers(rows, ns)
      modifies this
      ensures |rows| == |old(rows)|
      ensures forall i :: 0 <= i < |rows| ==> rows[i] == ScoreDistrict(old(rows)[i], nr, ns)
    {
      var r0 := rows;
      rows := seq(|r0|, i requires 0 <= i < |r0| => WithRisk(r0[i], nr));
      var r1 := rows;
      rows := seq(|r1|, i requires 0 <= i < |r1| => WithSafety(r1[i], ns));
      var r2 := rows;
      rows := seq(|r2|, i requires 0 <= i < |r2| => WithNet(r2[i]));
      forall i | 0 <= i < |rows| ensures rows[i] == ScoreDistrict(r0[i], nr, ns) {
        assert rows[i] == WithNet(WithSafety(WithRisk(r0[i], nr), ns));
      }
    }

    /** `gdf[col] = gdf[col].fillna(0)`: the column's missing cells become 0. */
    method FillColumn(col: string)
      requires forall i :: 0 <= i < |rows| ==> col in rows[i].cells
      modifies this
      ensures |rows| == |old(rows)|
      ensures forall i :: 0 <= i < |rows| ==>
        rows[i] == old(rows)[i].(cells := old(rows)[i].cells[col := FillNa(old(rows)[i].cells[col])])
    {
      var r0 := rows;
      rows := seq(|r0|, i requires 0 <= i < |r0| => r0[i].(cells := r0[i].cells[col := FillNa(r0[i].cells[col])]));
    }
  }
}
