/**
 * The reference tab on population and crime counts: the crime table and the
 * population table are merged on the region name, and each count gets its
 * competition rank in descending order (`rank(method='min', ascending=False)`):
 * one more than the number of regions with a strictly larger count, so that
 * equal counts share the smallest rank of their group. The table is then
 * shown sorted by the chosen rank.
 */
module Ranking {
  import opened Values
  import opened Tables
  import opened Ordering

  /** How many of `xs` are strictly greater than `v`. */
  function CountGreater(xs: seq<real>, v: real): (n: nat)
    ensures n <= |xs|
  {
    if xs == [] then 0 else (if xs[0] > v then 1 else 0) + CountGreater(xs[1..], v)
  }

  /** How many of `rs` are strictly smaller than `k`. */
  function CountBelow(rs: seq<int>, k: int): (n: nat)
    ensures n <= |rs|
  {
    if rs == [] then 0 else (if rs[0] < k then 1 else 0) + CountBelow(rs[1..], k)
  }

  /** Descending competition ranks of `xs`, position by position. */
  function MinRankDesc(xs: seq<real>): (r: seq<int>)
    ensures |r| == |xs|
  {
    seq(|xs|, i requires 0 <= i < |xs| => 1 + CountGreater(xs, xs[i]))
  }

  /** `v` counts strictly fewer larger values than any smaller `u`. */
  lemma {:induction false} CountGreaterMonotone(xs: seq<real>, u: real, v: real)
    requires u <= v
    ensures CountGreater(xs, v) <= CountGreater(xs, u)
  {
    if xs != [] { CountGreaterMonotone(xs[1..], u, v); }
  }

  /** A value of `xs` is never greater than itself, so fewer than |xs| values exceed it. */
  lemma {:induction false} CountGreaterMember(xs: seq<real>, i: int)
    requires 0 <= i < |xs|
    ensures CountGreater(xs, xs[i]) < |xs|
  {
    if i > 0 { CountGreaterMember(xs[1..], i - 1); }
    else { assert CountGreater(xs[1..], xs[0]) <= |xs| - 1; }
  }

  /** A larger value counts every value the smaller one counts, but not itself. */
  lemma {:induction false} CountGreaterStrict(xs: seq<real>, i: int, v: real)
    requires 0 <= i < |xs| && v < xs[i]
    ensures CountGreater(xs, xs[i]) < CountGreater(xs, v)
  {
    if i > 0 {
      CountGreaterStrict(xs[1..], i - 1, v);
    } else {
      CountGreaterMonotone(xs[1..], v, xs[0]);
    }
  }

  /**
   * Ranks lie in 1..n, equal values share a rank, a strictly larger value has a
   * strictly smaller rank, and a largest value has rank 1.
   */
  lemma MinRankProperties(xs: seq<real>)
    ensures forall i :: 0 <= i < |xs| ==> 1 <= MinRankDesc(xs)[i] <= |xs|
    ensures forall i, j :: 0 <= i < |xs| && 0 <= j < |xs| && xs[i] == xs[j] ==> MinRankDesc(xs)[i] == MinRankDesc(xs)[j]
    ensures forall i, j :: 0 <= i < |xs| && 0 <= j < |xs| && xs[i] > xs[j] ==> MinRankDesc(xs)[i] < MinRankDesc(xs)[j]
    ensures forall i :: 0 <= i < |xs| && (forall j :: 0 <= j < |xs| ==> xs[j] <= xs[i]) ==> MinRankDesc(xs)[i] == 1
  {
    var r := MinRankDesc(xs);
    forall i | 0 <= i < |xs| ensures 1 <= r[i] <= |xs| {
      CountGreaterMember(xs, i);
    }
    forall i, j | 0 <= i < |xs| && 0 <= j < |xs| && xs[i] > xs[j] ensures r[i] < r[j] {
      CountGreaterStrict(xs, i, xs[j]);
    }
    forall i | 0 <= i < |xs| && (forall j :: 0 <= j < |xs| ==> xs[j] <= xs[i]) ensures r[i] == 1 {
      NoneGreater(xs, xs[i]);
    }
  }

  lemma {:induction false} NoneGreater(xs: seq<real>, v: real)
    requires forall j :: 0 <= j < |xs| ==> xs[j] <= v
    ensures CountGreater(xs, v) == 0
  {
    if xs != [] { NoneGreater(xs[1..], v); }
  }

  /**
   * The competition-ranking property: exactly rank - 1 entries have a smaller
   * (better) rank than a given entry.
   */
  lemma CompetitionRank(xs: seq<real>, i: int)
    requires 0 <= i < |xs|
    ensures CountBelow(MinRankDesc(xs), MinRankDesc(xs)[i]) == MinRankDesc(xs)[i] - 1
  {
    var r := MinRankDesc(xs);
    MinRankProperties(xs);
    forall j | 0 <= j < |xs| ensures (r[j] < r[i]) == (xs[j] > xs[i]) {
    }
    CountsAgree(xs, r, xs[i], r[i]);
  }

  lemma {:induction false} CountsAgree(xs: seq<real>, rs: seq<int>, v: real, k: int)
    requires |xs| == |rs|
    requires forall j :: 0 <= j < |xs| ==> (rs[j] < k) == (xs[j] > v)
    ensures CountBelow(rs, k) == CountGreater(xs, v)
  {
    if xs != [] {
      CountsAgree(xs[1..], rs[1..], v, k);
    }
  }

  /** One row of the merged reference table. */
  datatype RegionRow = RegionRow(region: string, crimes: real, population: real, crimeRank: int, populationRank: int)

  /** The two counts that the reference file pairs with a region. */
  datatype RegionCount = RegionCount(region: string, count: real)

  function RegionKey(c: RegionCount): Option<string>
  {
    Some(c.region)
  }

  function CountRegion(c: RegionCount): string
  {
    c.region
  }

  function CrimesOf(rows: seq<RegionRow>): (xs: seq<real>)
    ensures |xs| == |rows| && forall i :: 0 <= i < |rows| ==> xs[i] == rows[i].crimes
  {
    seq(|rows|, i requires 0 <= i < |rows| => rows[i].crimes)
  }

  function PopulationsOf(rows: seq<RegionRow>): (xs: seq<real>)
    ensures |xs| == |rows| && forall i :: 0 <= i < |rows| ==> xs[i] == rows[i].population
  {
    seq(|rows|, i requires 0 <= i < |rows| => rows[i].population)
  }

  /** `row` joins a crime count and a population count of the same region. */
  ghost predicate MergedFrom(row: RegionRow, crime: seq<RegionCount>, population: seq<RegionCount>)
  {
    exists c, p :: c in crime && p in population && c.region == p.region
                   && row.region == c.region && row.crimes == c.count && row.population == p.count
  }

  /** The merged row of a crime count and a population count, before ranking. */
  function Unranked(pair: (RegionCount, RegionCount)): RegionRow
  {
    RegionRow(pair.0.region, pair.0.count, pair.1.count, 0, 0)
  }

  function UnrankedAll(pairs: seq<(RegionCount, RegionCount)>): (r: seq<RegionRow>)
    ensures |r| == |pairs| && forall i :: 0 <= i < |r| ==> r[i] == Unranked(pairs[i])
  {
    if pairs == [] then [] else [Unranked(pairs[0])] + UnrankedAll(pairs[1..])
  }

  /** `pd.merge(crime_df, pop_df, on="지역")`: an inner merge on the region name. */
  function MergeRegions(crime: seq<RegionCount>, population: seq<RegionCount>): (r: seq<RegionRow>)
    ensures forall row :: row in r ==> MergedFrom(row, crime, population)
    ensures forall c, p :: c in crime && p in population && c.region == p.region ==> Unranked((c, p)) in r
  {
    var pairs := InnerJoin(crime, population, RegionKey, CountRegion);
    var r := UnrankedAll(pairs);
    MergeSound(crime, population, pairs, r);
    MergeComplete(crime, population, pairs, r);
    r
  }

  lemma MergeSound(crime: seq<RegionCount>, population: seq<RegionCount>,
                   pairs: seq<(RegionCount, RegionCount)>, r: seq<RegionRow>)
    requires pairs == InnerJoin(crime, population, RegionKey, CountRegion) && r == UnrankedAll(pairs)
    ensures forall row :: row in r ==> MergedFrom(row, crime, population)
  {
    forall row | row in r ensures MergedFrom(row, crime, population) {
      var i :| 0 <= i < |r| && r[i] == row;
      assert pairs[i] in pairs;
      var c, p := pairs[i].0, pairs[i].1;
      assert c in crime && p in population && c.region == p.region
             && row.region == c.region && row.crimes == c.count && row.population == p.count;
    }
  }

  lemma MergeComplete(crime: seq<RegionCount>, population: seq<RegionCount>,
                      pairs: seq<(RegionCount, RegionCount)>, r: seq<RegionRow>)
    requires pairs == InnerJoin(crime, population, RegionKey, CountRegion) && r == UnrankedAll(pairs)
    ensures forall c, p :: c in crime && p in population && c.region == p.region ==> Unranked((c, p)) in r
  {
    forall c, p | c in crime && p in population && c.region == p.region ensures Unranked((c, p)) in r {
      assert RegionKey(c) == Some(CountRegion(p));
      assert (c, p) in pairs;
      var i :| 0 <= i < |pairs| && pairs[i] == (c, p);
      assert r[i] == Unranked((c, p));
    }
  }

  /** Both rank columns filled in from the table's own counts. */
  function WithRanks(merged: seq<RegionRow>): (r: seq<RegionRow>)
    ensures |r| == |merged|
    ensures forall i :: 0 <= i < |r| ==> r[i] == merged[i].(crimeRank := r[i].crimeRank, populationRank := r[i].populationRank)
  {
    var cr, pr := MinRankDesc(CrimesOf(merged)), MinRankDesc(PopulationsOf(merged));
    seq(|merged|, i requires 0 <= i < |merged| => merged[i].(crimeRank := cr[i], populationRank := pr[i]))
  }

  /**
   * `load_correlation_data` after parsing: the merge, then both rank columns.
   * Every row pairs a crime count with a population count of one region, and
   * every such pair of the inputs has its row.
   */
  function LoadCorrelation(crime: seq<RegionCount>, population: seq<RegionCount>): (r: seq<RegionRow>)
    ensures |r| == |MergeRegions(crime, population)|
    ensures forall i :: 0 <= i < |r| ==>
      r[i] == MergeRegions(crime, population)[i].(crimeRank := r[i].crimeRank, populationRank := r[i].populationRank)
    ensures forall row :: row in r ==> MergedFrom(row, crime, population)
    ensures forall c, p :: c in crime && p in population && c.region == p.region ==>
      exists i :: 0 <= i < |r| && r[i].region == c.region && r[i].crimes == c.count && r[i].population == p.count
  {
    var merged := MergeRegions(crime, population);
    var r := WithRanks(merged);
    LoadCorrelationSound(crime, population, merged, r);
    LoadCorrelationComplete(crime, population, merged, r);
    r
  }

  lemma LoadCorrelationSound(crime: seq<RegionCount>, population: seq<RegionCount>,
                             merged: seq<RegionRow>, r: seq<RegionRow>)
    requires merged == MergeRegions(crime, population) && r == WithRanks(merged)
    ensures forall row :: row in r ==> MergedFrom(row, crime, population)
  {
    forall row | row in r ensures MergedFrom(row, crime, population) {
      var i :| 0 <= i < |r| && r[i] == row;
      assert merged[i] in merged;
    }
  }

  lemma LoadCorrelationComplete(crime: seq<RegionCount>, population: seq<RegionCount>,
                                merged: seq<RegionRow>, r: seq<RegionRow>)
    requires merged == MergeRegions(crime, population) && r == WithRanks(merged)
    ensures forall c, p :: c in crime && p in population && c.region == p.region ==>
      exists i :: 0 <= i < |r| && r[i].region == c.region && r[i].crimes == c.count && r[i].population == p.count
  {
    forall c, p | c in crime && p in population && c.region == p.region
      ensures exists i :: 0 <= i < |r| && r[i].region == c.region && r[i].crimes == c.count && r[i].population == p.count
    {
      var k :| 0 <= k < |merged| && merged[k] == Unranked((c, p));
      assert r[k].region == c.region && r[k].crimes == c.count && r[k].population == p.count;
    }
  }

  /** A missing reference file yields an empty table; so do empty inputs here. */
  lemma {:induction false} LoadCorrelationMissingFile(population: seq<RegionCount>)
    ensures LoadCorrelation([], population) == []
  {
    assert InnerJoin([], population, RegionKey, CountRegion) == [];
  }

  /** Each row's ranks are the competition ranks of its counts within the table. */
  ghost predicate RankedWithin(rows: seq<RegionRow>)
  {
    forall i :: 0 <= i < |rows| ==>
      rows[i].crimeRank == 1 + CountGreater(CrimesOf(rows), rows[i].crimes)
      && rows[i].populationRank == 1 + CountGreater(PopulationsOf(rows), rows[i].population)
  }

  lemma LoadCorrelationRanked(crime: seq<RegionCount>, population: seq<RegionCount>)
    ensures RankedWithin(LoadCorrelation(crime, population))
  {
    var merged := MergeRegions(crime, population);
    var r := WithRanks(merged);
    assert CrimesOf(r) == CrimesOf(merged);
    assert PopulationsOf(r) == PopulationsOf(merged);
  }

  datatype RankColumn = CrimeRank | PopulationRank

  function RankOf(c: RankColumn): RegionRow -> real
  {
    match c
    case CrimeRank => (row: RegionRow) => row.crimeRank as real
    case PopulationRank => (row: RegionRow) => row.populationRank as real
  }

  /** `sort_values(by=sort_by).reset_index(drop=True)`: ascending by the chosen rank. */
  function SortByRank(rows: seq<RegionRow>, column: RankColumn): (r: seq<RegionRow>)
    ensures multiset(r) == multiset(rows)
    ensures SortedBy(r, RankOf(column), false)
  {
    SortBy(rows, RankOf(column), false)
  }

  /**
   * Sorting a ranked table by ascending crime rank lists the regions by
   * non-increasing crime count.
   */
  lemma SortByCrimeRankIsByCrimes(rows: seq<RegionRow>)
    requires RankedWithin(rows)
    ensures SortedBy(SortByRank(rows, CrimeRank), (row: RegionRow) => row.crimes, true)
  {
    var s := SortByRank(rows, CrimeRank);
    forall i, j | 0 <= i < j < |s| ensures s[i].crimes >= s[j].crimes {
      assert InOrder(RankOf(CrimeRank)(s[i]), RankOf(CrimeRank)(s[j]), false);
      assert s[i] in multiset(rows) && s[j] in multiset(rows);
      var a :| 0 <= a < |rows| && rows[a] == s[i];
      var b :| 0 <= b < |rows| && rows[b] == s[j];
      CrimeRankOrder(rows, a, b);
    }
  }

  /** Within a ranked table, a row whose crime rank is not larger has no fewer crimes. */
  lemma CrimeRankOrder(rows: seq<RegionRow>, a: int, b: int)
    requires RankedWithin(rows) && 0 <= a < |rows| && 0 <= b < |rows|
    requires rows[a].crimeRank <= rows[b].crimeRank
    ensures rows[a].crimes >= rows[b].crimes
  {
    var xs := CrimesOf(rows);
    if rows[a].crimes < rows[b].crimes {
      CountGreaterStrict(xs, b, xs[a]);
    }
  }
}
