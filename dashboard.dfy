/**
 * The tables the dashboard shows and the run of the net-risk tab that
 * produces them: the session weights are initialised and overwritten by the
 * sliders, normalised per category, the scores are written into the district
 * table, and the net-score table is shown, sorted only when the checkbox is on.
 */
module Dashboard {
  import opened Values
  import opened Weights
  import opened Session
  import opened Tables
  import opened Scoring
  import opened Ordering

  /** One row of the net-score table: district, net risk, total risk, total safety. */
  datatype NetRow = NetRow(dong: string, net: real, risk: real, safety: real)

  /** One row of the single-factor table: district and the factor's value. */
  datatype FactorRow = FactorRow(dong: string, value: real)

  function NetOf(row: NetRow): real
  {
    row.net
  }

  function ValueOf(row: FactorRow): real
  {
    row.value
  }

  predicate HasScores(d: District)
  {
    TOTAL_RISK in d.cells && TOTAL_SAFETY in d.cells && NET_RISK in d.cells
  }

  /** The displayed columns of one scored district. */
  function NetRowOf(d: District): NetRow
    requires HasScores(d)
  {
    NetRow(d.dong, AsReal(d.cells[NET_RISK]), AsReal(d.cells[TOTAL_RISK]), AsReal(d.cells[TOTAL_SAFETY]))
  }

  /** `gdf[['행정동', '순위험도', '총위험도', '총안전도']]`, row order kept. */
  function NetView(rows: seq<District>): (r: seq<NetRow>)
    requires forall i :: 0 <= i < |rows| ==> HasScores(rows[i])
    ensures |r| == |rows|
    ensures forall i :: 0 <= i < |r| ==> r[i] == NetRowOf(rows[i])
  {
    seq(|rows|, i requires 0 <= i < |rows| => NetRowOf(rows[i]))
  }

  /**
   * The net-score table as displayed: with the checkbox on, the rows reordered
   * by non-increasing net risk; with it off, the rows in table order.
   */
  function NetTable(rows: seq<District>, sortEnabled: bool): (r: seq<NetRow>)
    requires forall i :: 0 <= i < |rows| ==> HasScores(rows[i])
    ensures multiset(r) == multiset(NetView(rows))
    ensures sortEnabled ==> SortedBy(r, NetOf, true)
    ensures !sortEnabled ==> r == NetView(rows)
  {
    var view := NetView(rows);
    if sortEnabled then SortBy(view, NetOf, true) else view
  }

  /** `gdf[['행정동', col]]`. */
  function FactorView(rows: seq<District>, col: string): (r: seq<FactorRow>)
    requires forall i :: 0 <= i < |rows| ==> col in rows[i].cells
    ensures |r| == |rows|
    ensures forall i :: 0 <= i < |r| ==> r[i] == FactorRow(rows[i].dong, AsReal(rows[i].cells[col]))
  {
    seq(|rows|, i requires 0 <= i < |rows| => FactorRow(rows[i].dong, AsReal(rows[i].cells[col])))
  }

  /** The single-factor table: always in non-increasing order of the selected column. */
  function FactorTable(rows: seq<District>, col: string): (r: seq<FactorRow>)
    requires forall i :: 0 <= i < |rows| ==> col in rows[i].cells
    ensures multiset(r) == multiset(FactorView(rows, col))
    ensures SortedBy(r, ValueOf, true)
  {
    SortBy(FactorView(rows, col), ValueOf, true)
  }

  /** Every row of the table has each of `cols` as a column. */
  predicate HasColumns(rows: seq<District>, cols: seq<string>)
  {
    forall i, j :: 0 <= i < |rows| && 0 <= j < |cols| ==> cols[j] in rows[i].cells
  }

  /**
   * If the table has the columns of a dictionary and of the factors the slider
   * loop visits, it has the columns of the normalised dictionary after the loop.
   */
  lemma CoversAfterSliders(rows: seq<District>, d: Dict, factors: seq<string>, chosen: map<string, real>)
    requires TableCovers(rows, d) && HasColumns(rows, factors)
    ensures TableCovers(rows, Normalize(Slid(d, factors, chosen)))
  {
    var s := Slid(d, factors, chosen);
    var n := Normalize(s);
    forall i, j | 0 <= i < |rows| && 0 <= j < |n| ensures n[j].factor in rows[i].cells {
      assert n[j].factor == Keys(n)[j] == Keys(s)[j];
      SlidKeysWithin(d, factors, chosen, n[j].factor);
      if n[j].factor in Keys(d) {
        var k :| 0 <= k < |d| && Keys(d)[k] == n[j].factor;
        assert Covers(d, rows[i].cells);
      } else {
        var k :| 0 <= k < |factors| && factors[k] == n[j].factor;
      }
    }
  }

  /**
   * Risk and safety are normalised against separate denominators: the total
   * risk written for a district does not depend on the safety weights, and the
   * total safety does not depend on the risk weights.
   */
  lemma SeparateDenominators(d: District, risk1: Dict, risk2: Dict, safety1: Dict, safety2: Dict)
    requires Covers(Normalize(risk1), d.cells) && Covers(Normalize(risk2), d.cells)
    requires Covers(Normalize(safety1), d.cells) && Covers(Normalize(safety2), d.cells)
    requires NoScoreFactor(Normalize(safety1))
    ensures ScoreDistrict(d, Normalize(risk1), Normalize(safety1)).cells[TOTAL_RISK]
         == ScoreDistrict(d, Normalize(risk1), Normalize(safety2)).cells[TOTAL_RISK]
    ensures ScoreDistrict(d, Normalize(risk1), Normalize(safety1)).cells[TOTAL_SAFETY]
         == ScoreDistrict(d, Normalize(risk2), Normalize(safety1)).cells[TOTAL_SAFETY]
  {
    ScoreDistrictValues(d, Normalize(risk1), Normalize(safety1));
    ScoreDistrictValues(d, Normalize(risk2), Normalize(safety1));
  }

  /**
   * If the table has the columns of the session's weights (or of the defaults)
   * and of every factor of the category, it has the columns of the weights
   * after the run, normalised.
   */
  lemma CoversAfterRun(rows: seq<District>, store: map<Category, Dict>, c: Category, chosen: map<string, real>)
    requires c in store ==> TableCovers(rows, store[c])
    requires HasColumns(rows, Factors(c))
    ensures TableCovers(rows, Normalize(WeightsAfterRun(store, c, chosen)))
  {
    var d := if c in store then store[c] else Initial(c);
    if c !in store {
      CoversInitial(rows, c);
    }
    CoversAfterSliders(rows, d, Factors(c), chosen);
  }

  lemma ScoredRowsHaveScores(before: seq<District>, after: seq<District>, nr: Dict, ns: Dict)
    requires TableCovers(before, nr) && TableCovers(before, ns) && |after| == |before|
    requires forall i :: 0 <= i < |after| ==> after[i] == ScoreDistrict(before[i], nr, ns)
    ensures forall i :: 0 <= i < |after| ==> HasScores(after[i])
  {
  }

  /** The default dictionaries name only the category's factors. */
  lemma CoversInitial(rows: seq<District>, c: Category)
    requires HasColumns(rows, Factors(c))
    ensures TableCovers(rows, Initial(c))
  {
    InitialValid(c);
    var d := Initial(c);
    forall i, j | 0 <= i < |rows| && 0 <= j < |d| ensures d[j].factor in rows[i].cells {
      assert d[j].factor == Keys(d)[j] == Factors(c)[j];
    }
  }

  /**
   * One run of the net-risk tab (the tabs run only on a loaded, non-empty
   * table): session initialisation, both slider loops,
   * normalisation, the score columns, and the displayed net-score table.
   */
  method NetRiskTab(session: SessionState, frame: DistrictFrame,
                    chosenRisk: map<string, real>, chosenSafety: map<string, real>, sortEnabled: bool)
    returns (table: seq<NetRow>)
    requires |frame.rows| > 0
    requires session.Valid() && InSliderRange(chosenRisk) && InSliderRange(chosenSafety)
    requires forall c :: c in session.store ==> TableCovers(frame.rows, session.store[c])
    requires HasColumns(frame.rows, Factors(Risk)) && HasColumns(frame.rows, Factors(Safety))
    modifies session, frame
    ensures session.Valid()
    ensures session.store.Keys == old(session.store.Keys) + {Risk, Safety}
    ensures session.store[Risk] == WeightsAfterRun(old(session.store), Risk, chosenRisk)
    ensures session.store[Safety] == WeightsAfterRun(old(session.store), Safety, chosenSafety)
    ensures TableCovers(old(frame.rows), Normalize(session.store[Risk]))
    ensures TableCovers(old(frame.rows), Normalize(session.store[Safety]))
    ensures |frame.rows| == |old(frame.rows)|
    ensures forall i :: 0 <= i < |frame.rows| ==>
      frame.rows[i] == ScoreDistrict(old(frame.rows)[i], Normalize(session.store[Risk]), Normalize(session.store[Safety]))
    ensures forall i :: 0 <= i < |frame.rows| ==> HasScores(frame.rows[i])
    ensures table == NetTable(frame.rows, sortEnabled)
  {
    ghost var store0, rows0 := session.store, frame.rows;
    CoversAfterRun(rows0, store0, Risk, chosenRisk);
    CoversAfterRun(rows0, store0, Safety, chosenSafety);
    session.RunTab(chosenRisk, chosenSafety);
    var normRisk := Normalize(session.store[Risk]);
    var normSafety := Normalize(session.store[Safety]);
    assert TableCovers(rows0, normRisk) && TableCovers(rows0, normSafety);
    frame.AssignScores(normRisk, normSafety);
    ScoredRowsHaveScores(rows0, frame.rows, normRisk, normSafety);
    table := NetTable(frame.rows, sortEnabled);
  }

  /**
   * One run of the single-factor tab on a loaded, non-empty table: the
   * column's missing cells become 0, then the sorted table.
   */
  method IndividualTab(frame: DistrictFrame, col: string) returns (table: seq<FactorRow>)
    requires |frame.rows| > 0
    requires forall i :: 0 <= i < |frame.rows| ==> col in frame.rows[i].cells
    modifies frame
    ensures |frame.rows| == |old(frame.rows)|
    ensures forall i :: 0 <= i < |frame.rows| ==>
      frame.rows[i] == old(frame.rows)[i].(cells := old(frame.rows)[i].cells[col := FillNa(old(frame.rows)[i].cells[col])])
    ensures forall i :: 0 <= i < |frame.rows| ==> col in frame.rows[i].cells && frame.rows[i].cells[col].Num?
    ensures table == FactorTable(frame.rows, col)
  {
    frame.FillColumn(col);
    table := FactorTable(frame.rows, col);
  }
}
