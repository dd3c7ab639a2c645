# Daegu crime dashboard: net-risk scoring model

This project is a Dafny model of the computational core of a Streamlit dashboard, `app2.py`. The dashboard scores the administrative districts (행정동) of Daegu by a user-weighted "net risk". The model covers:

- **District table** (`load_data`). The crime table has every missing cell filled with 0 and loses its aggregate row "소계". Each map feature is keyed by the last whitespace-separated token of its administrative name (`adm_nm`). The two tables are then inner-joined on that key. A missing file (the `FileNotFoundError` that `load_data` catches) or a map layer without `adm_nm` gives no table. The tabs run only when a non-empty table was loaded. Modules: `Values`, `Tokens`, `Tables`.
- **Session weights**. The session state holds one weight dictionary per category (risk, safety). A dictionary is installed from fixed defaults the first time the tab runs. Then a loop over the category's factors overwrites each factor's weight with its slider's value. The slider ranges over [0.0, 0.5], and its default is the current weight, or 0.1 when the factor has none. Python dicts keep insertion order, so a dictionary is a sequence of entries with distinct keys. Modules: `Weights`, `Session`.
- **Normalisation**. Each dictionary is divided by its own total. When that total is not positive, every weight becomes 0. Module: `Weights`.
- **Aggregation**. Per district:
  - total risk (총위험도) is the sum of each risk factor's value times its normalised weight, with missing values read as 0;
  - total safety (총안전도) is the same sum over the safety factors;
  - net risk (순위험도) is total risk minus total safety.

  The three columns are written into the shared district table. Module: `Scoring`.
- **Tables shown**:
  - the net-score table is sorted by non-increasing net risk only when its checkbox is on;
  - the single-factor table is always sorted by non-increasing value;
  - the reference tab merges crime and population counts by region, ranks each count with `rank(method='min', ascending=False)`, and sorts by the chosen rank.

  Modules: `Ordering`, `Ranking`, `Dashboard`.

Two parts change state in place, so they are classes:
- the session state (`Session.SessionState`, whose slider loop is a `while` loop proved against the fold `Session.Slid`);
- the district table whose columns the tabs overwrite (`Scoring.DistrictFrame`).

Everything else is pure functions and lemmas.

Numbers are modelled as mathematical reals, not IEEE floats. In the model, "the normalised weights add up to 1" therefore holds exactly. The program's floats only approximate it.

Two modelling decisions follow from how the code behaves:
- The tables are sorted with `sort_values` and pandas' default sort, which is not stable. The sort contracts (`Ordering.SortBy`, `Dashboard.NetTable`, `Dashboard.FactorTable`, `Ranking.SortByRank`) therefore promise the order by the key and a permutation of the rows, and nothing about the order of rows with equal keys.
- Reading a factor column with `gdf[factor]` raises `KeyError` when the table lacks that column. The model makes the column's presence a precondition (`Scoring.Covers`, `Dashboard.HasColumns`).

## Model

| member | source | states |
|---|---|---|
| Values.FillNa | app2.py:63 | `fillna(0)` on one cell yields a number; a number is kept and a missing cell reads as 0 |
| Values.FillNaCells | app2.py:63 | `fillna(0)` on a row keeps its columns and turns every cell into a number with the same reading |
| Tables.FillNaTable | app2.py:63 | the filled crime table has the same rows in the same order, each with its cells filled |
| Tables.DropSubtotal | app2.py:64 | a row is kept exactly when it is a row of the input whose district name is not "소계"; the table never grows |
| Tables.DropSubtotalIdentity | app2.py:64 | a table without a "소계" row passes through unchanged |
| Tables.DropSubtotalAppend | app2.py:64 | the filter distributes over concatenation, so the kept rows keep their relative order |
| Tokens.LastToken | app2.py:69 | the key is absent (NaN) exactly when the name is all whitespace; otherwise it is a non-empty run of non-space characters that is a whole token followed only by whitespace |
| Tokens.LastTokenUnique | app2.py:69 | any whole token followed only by whitespace is the key `str.split().str[-1]` returns, so the key is determined |
| Tokens.ExampleKey | app2.py:69 | the name "대구광역시 중구 동인동" has key "동인동", and a blank name has no key |
| Tables.Matches | app2.py:70 | a pair is listed exactly when it pairs the given left row with a right row whose key matches; its order and multiplicity are fixed by `Tables.MatchesAppend` and `Tables.MatchesSingle` |
| Tables.MatchesAppend | app2.py:70 | matching the two parts of a right table and concatenating gives the matches of the whole, so matches come in right-table order |
| Tables.MatchesSingle | app2.py:70 | a single right row is matched exactly once when its key equals the left key, and otherwise not at all |
| Tables.Combine | app2.py:70 | a joined row takes the feature's name and the crime row's district name (as key and name) and columns |
| Tables.CombineAll | app2.py:70 | the joined rows are `Combine` of each joined pair, in the same order |
| Tables.InnerJoin | app2.py:70 | a pair is in the merge exactly when its left row's key is present and equals its right row's key; a NaN key matches nothing |
| Tables.InnerJoinAppend | app2.py:70 | the merge of two parts of the left table, concatenated, is the merge of the whole, so left rows keep their order |
| Tables.InnerJoinSingle | app2.py:70 | a single left row contributes exactly its matches, in right-table order |
| Tables.JoinPairs | app2.py:69-70 | a feature/crime-row pair is joined exactly when the feature's last name token equals the district name |
| Tables.JoinDistricts | app2.py:69-70 | a row is in the merged table exactly when it combines a feature and a crime row whose keys match |
| Tables.LoadData | app2.py:60-77 | a table results exactly when both files exist and the map has `adm_nm`; its rows are exactly the joins of the features with the filled crime table minus its "소계" row |
| Tables.LoadDataShape | app2.py:60-77 | every loaded row has no "소계" name, its key is its feature's last name token and equals the district name, all its cells are numbers, and it comes from an input feature and an input crime row with the same columns |
| Weights.Get | app2.py:144 | `d.get(k, default)`: the weight of the entry with key `k`, else `default`; characterised by `Weights.GetSpec`, `Session.GetPresent` and `Session.GetWithin` (no contract of its own) |
| Session.GetWithin | app2.py:144 | a lookup in a dictionary whose weights lie in a range, with a default in that range, lies in that range |
| Weights.GetSpec | app2.py:144 | `dict.get(k, default)` returns the default exactly when `k` is absent, and otherwise the weight stored under `k` |
| Weights.Put | app2.py:142 | `d[k] = v`: the entry for `k` replaced where it stands, or appended; characterised by `Weights.PutKeys`, `Weights.PutUnique`, `Weights.GetPut`, `Weights.GetPutOther` and `Session.PutWithin` (no contract of its own) |
| Session.PutWithin | app2.py:142 | assigning a value in a range to a dictionary whose weights lie in that range keeps them all in range |
| Weights.PutKeys | app2.py:142 | `d[k] = v` keeps the keys and their order, appending `k` only when it is new |
| Weights.PutUnique | app2.py:142 | assignment never duplicates a key |
| Weights.GetPut | app2.py:142 | after `d[k] = v`, looking up `k` gives `v` |
| Weights.GetPutOther | app2.py:142 | `d[k] = v` leaves the lookup of every other key unchanged |
| Weights.Total | app2.py:159-160 | `sum(d.values())`; characterised by `Weights.TotalNonNegative`, `Weights.TotalZeroIff`, `Weights.TotalScale` and `Weights.TotalDivide` (no contract of its own) |
| Weights.TotalNonNegative | app2.py:159-160 | the total of slider-range weights is not negative |
| Weights.TotalScale | app2.py:159-160 | scaling every weight by `c` scales the total by `c` |
| Weights.TotalDivide | app2.py:159-165 | dividing every weight by `t` divides the total by `t` |
| Weights.Normalize | app2.py:159-165 | the normalised dictionary has the same keys in the same order |
| Weights.NormalizePositive | app2.py:159-165 | with a positive total, each normalised weight is its raw weight over the total, and the normalised weights add up to 1 |
| Weights.NormalizeNotPositive | app2.py:159-165 | with a total that is not positive, every normalised weight is 0 and they add up to 0 |
| Weights.NormalizeBounds | app2.py:159-165 | for weights in the slider range, every normalised weight lies in [0, 1] |
| Weights.TotalZeroIff | app2.py:159-160 | for weights in the slider range, the total is 0 exactly when every weight is 0, which is the only case where normalisation yields zeros |
| Weights.ScaleInvariant | app2.py:159-165 | multiplying every raw weight by a positive constant leaves the normalised dictionary unchanged |
| Session.InitialValid | app2.py:105-113 | each default dictionary has distinct keys, exactly the category's factors in list order, and every default weight within [0.0, 0.5] |
| Session.Slider | app2.py:142-146 | the slider returns its default when the user has not set it, and a value in [0.0, 0.5] whenever its default lies there |
| Session.Initial | app2.py:105-113 | the default dictionary pairs each factor of the category with its default value, in list order (`Session.Pair`, `Session.InitialValid`) |
| Session.SlideOne | app2.py:142-146 | one iteration of the slider loop: the factor's weight becomes the slider's value, whose default is the current weight or 0.1; characterised through `Session.Slid` (no contract of its own) |
| Session.Slid | app2.py:141-154 | the slider loop over the factors in order, as a fold of `SlideOne`; characterised by `Session.SlidFactor`, `Session.SlidOthers`, `Session.SlidKeys`, `Session.SlidKeysWithin`, `Session.SlidWithin`, `Session.SlidUnique`, and `Session.SessionState.ApplySliders` is proved equal to it (no contract of its own) |
| Session.SlidFactor | app2.py:141-154 | after the loop, each visited factor holds the user's slider value, or else its previous weight, or else 0.1 when it had none |
| Session.SlidOthers | app2.py:141-154 | the loop leaves the weight of every key it does not visit unchanged |
| Session.SlidKeys | app2.py:141-154 | after the loop every visited factor and every earlier key is a key |
| Session.SlidKeysWithin | app2.py:141-154 | the loop adds no key other than the factors it visits |
| Session.SlidKeepsKeys | app2.py:141-154 | when every visited factor is already a key, the keys and their order are unchanged |
| Session.SlidWithin | app2.py:141-154 | with slider values in range, the loop keeps every weight in [0.0, 0.5] |
| Session.SlidUnique | app2.py:141-154 | the loop never duplicates a key |
| Session.GetPresent | app2.py:144 | the 0.1 fallback of `get` matters only for a factor missing from the dictionary |
| Session.SlidersBound | app2.py:141-154 | after the loop every visited factor is present with a weight in [0.0, 0.5] |
| Session.ValidAfterSlide | app2.py:141-154 | running one category's loop keeps every stored dictionary valid (distinct keys, weights in range) |
| Session.WeightsAfterRun | app2.py:135-154 | the weights a category holds after a run: its stored dictionary, or the defaults when there is none, passed through the slider loop over its factors (`Session.SessionState.RunSliders` is proved to leave exactly this) |
| Session.SessionState.InitWeights | app2.py:135-138 | the defaults are installed only when the session holds no dictionary for the category; otherwise the state is unchanged |
| Session.SessionState.ApplySliders | app2.py:140-154 | the loop leaves the category's dictionary equal to the fold `Slid` over the factors, keeps the state valid, and does not touch the other category |
| Session.SessionState.RunSliders | app2.py:135-154 | one category's initialisation and slider loop leave it with `WeightsAfterRun`, keep the state valid, and leave the other category as it was |
| Session.SessionState.RunTab | app2.py:135-154 | after both loops each category holds the weights its own sliders give it, and the state stays valid |
| Scoring.WeightedTotal | app2.py:167-168 | one district's `sum(row[f].fillna(0) * w)` over the dictionary, defined only when the row has every factor; characterised by `Scoring.TotalDependsOnFactorsOnly`, `Scoring.MissingCountsAsZero`, `Scoring.ZeroWeightsZeroTotal` and `Scoring.ScoreDistrictValues` (no contract of its own) |
| Scoring.TotalDependsOnFactorsOnly | app2.py:167-168 | a district's weighted total depends only on the (filled) values of the dictionary's factors |
| Scoring.MissingCountsAsZero | app2.py:167-168 | a missing factor value contributes exactly what a 0 would |
| Scoring.ZeroWeightsZeroTotal | app2.py:167-168 | all-zero weights give a zero total for every district |
| Scoring.ZeroCategoryContributesNothing | app2.py:159-168 | when a category's sliders are all at 0, its normalised weights are 0 and its total is 0 for every district |
| Scoring.TotalScaleInvariant | app2.py:159-168 | scaling a category's raw weights by a positive constant leaves every district's total unchanged |
| Scoring.WithRisk | app2.py:167 | writing total risk adds exactly the column 총위험도 to the row |
| Scoring.WithSafety | app2.py:168 | writing total safety adds exactly the column 총안전도 to the row |
| Scoring.WithNet | app2.py:169 | writing net risk sets 순위험도 to total risk minus total safety; its effect is stated by `Scoring.ScoreDistrict` (no contract of its own) |
| Scoring.ScoreDistrict | app2.py:167-169 | the row gains the three score columns, net risk equals total risk minus total safety, and every other column and the name are unchanged |
| Scoring.ScoreDistrictValues | app2.py:167-169 | the written totals are the weighted sums over the row as loaded, and net risk is their difference |
| Scoring.DistrictFrame.AssignScores | app2.py:167-169 | after the three column writes, each row is its old row scored with the given weights, and the row count is unchanged |
| Scoring.DistrictFrame.FillColumn | app2.py:239 | the selected column's missing cells become 0 in every row, and nothing else changes |
| Ordering.Insert | app2.py:190 | inserting a row adds exactly that row (multiset) and one to the length; it keeps a sorted table sorted (`Ordering.InsertSorted`) |
| Ordering.InsertSorted | app2.py:190 | inserting a row into an ordered table keeps it ordered |
| Ordering.SortBy | app2.py:190 | the sorted table is ordered by the key in the requested direction and is a permutation of the input |
| Dashboard.NetView | app2.py:187 | the net-score view has one row per district in table order, holding its name, net risk, total risk and total safety |
| Dashboard.NetTable | app2.py:186-190 | with the checkbox on, the net-score table is the view reordered by non-increasing net risk; with it off, the view in table order |
| Dashboard.FactorView | app2.py:262 | the single-factor view has one row per district in table order, holding its name and the selected value |
| Dashboard.FactorTable | app2.py:262 | the single-factor table is the view reordered by non-increasing value |
| Dashboard.CoversAfterSliders | app2.py:141-168 | if the table has every factor of the dictionary and of the loop, it has every factor of the normalised dictionary after the loop |
| Dashboard.CoversInitial | app2.py:105-113 | a table with every factor of a category has every factor of its default dictionary |
| Dashboard.CoversAfterRun | app2.py:135-168 | a table with the columns the session and the factor lists name can be scored with the weights after the run |
| Dashboard.SeparateDenominators | app2.py:159-168 | a district's total risk does not depend on the safety weights, and its total safety does not depend on the risk weights |
| Dashboard.NetRiskTab | app2.py:125-190 | one run of the net-risk tab on a non-empty loaded table: the session holds each category's weights after its sliders, every row is scored with the normalised weights, and the table shown is `NetTable` of the scored rows |
| Dashboard.IndividualTab | app2.py:239-262 | on a non-empty loaded table, the single-factor tab fills the column's missing cells with 0 and shows that column's table sorted by non-increasing value |
| Ranking.CountGreater | app2.py:777-778 | the number of values strictly greater than `v` is at most the length |
| Ranking.MinRankDesc | app2.py:777-778 | `rank(method='min', ascending=False)`: each value's rank is one more than the number of strictly greater values; one rank per value, characterised by `Ranking.MinRankProperties` and `Ranking.CompetitionRank` |
| Ranking.CountGreaterStrict | app2.py:777-778 | a larger value has strictly fewer values above it than a smaller one |
| Ranking.MinRankProperties | app2.py:777-778 | descending min-method ranks lie in 1..n, equal counts share a rank, a larger count has a strictly smaller rank, and a largest count has rank 1 |
| Ranking.CompetitionRank | app2.py:777-778 | exactly rank − 1 entries have a smaller (better) rank than any given entry |
| Ranking.MergeRegions | app2.py:774 | every merged row pairs a crime count and a population count of the same region, and every such pair of the inputs has its row |
| Ranking.WithRanks | app2.py:777-778 | the rank columns are added and every other field of every row is kept |
| Ranking.LoadCorrelation | app2.py:760-780 | the ranked table is the merged table, row for row, with only the two rank columns added; every row pairs a crime count and a population count of one region, and every such pair of the inputs has a row |
| Ranking.LoadCorrelationSound | app2.py:774-778 | every ranked row pairs a crime count and a population count of one region |
| Ranking.LoadCorrelationComplete | app2.py:774-778 | every crime count and population count of the same region have a ranked row |
| Ranking.LoadCorrelationMissingFile | app2.py:781-783 | with no crime rows (the missing-file path returns an empty table), the ranked table is empty |
| Ranking.LoadCorrelationRanked | app2.py:774-778 | each row's ranks are one more than the number of rows with a strictly larger crime (respectively population) count |
| Ranking.SortByRank | app2.py:799 | the table sorted by the chosen rank is in non-decreasing rank order and is a permutation of the rows |
| Ranking.CrimeRankOrder | app2.py:777 | in a ranked table, a row whose crime rank is not larger has no fewer crimes |
| Ranking.SortByCrimeRankIsByCrimes | app2.py:777-799 | sorting a ranked table by crime rank lists the regions by non-increasing crime count |

## Left out

- User interface: page layout, tabs, widgets other than the weight sliders and the sort checkbox, the map and chart drawing (Plotly), and all narrative text.
- File reading: CSV, Excel and GeoJSON parsing are not modelled; the parsed tables are input parameters. For `Tables.LoadData` a missing file is an absent (`None`) input. For `Ranking.LoadCorrelation` a missing file makes the program return an empty table (app2.py:781-783), and that path is modelled by an empty crime input (`Ranking.LoadCorrelationMissingFile`). The cache (`st.cache_data`) is not modelled because it does not change results.
- The positional column selection, `dropna` and `to_numeric` of `load_correlation_data` (app2.py:766-771) are not modelled. The reference tab's inputs are already numeric region/count rows.
- The Pearson correlation, the OLS trendline and the quarter filter of the trend tabs are not modelled. They are floating-point statistics outside the scoring core.
- Map geometry is not modelled: a feature is its administrative name only.
- Floating-point rounding is not modelled, because weights and values are reals.
- Session.InSliderRange: does not model the slider's step of 0.01. Any real in [0.0, 0.5] is accepted.
- Session.Slider: does not model Streamlit's error for a default outside the slider's range. Every default the program can pass lies in range (`Session.InitialValid`, `Session.SlidWithin`).
- Session.SessionState.InitWeights: does not model that the installed dictionary is the same object as the module-level default. Streamlit rebuilds the defaults on every rerun, so the sharing has no visible effect.
- Ordering.SortBy: does not promise an order among rows with equal keys, because pandas' default sort is not stable. The same holds for Dashboard.NetTable, Dashboard.FactorTable and Ranking.SortByRank.
- Tables.JoinDistricts: its own contract states which rows appear (both directions), not their order or multiplicity. These follow from the pairs: `Tables.InnerJoinAppend`, `Tables.InnerJoinSingle`, `Tables.MatchesAppend` and `Tables.MatchesSingle` fix pandas' merge order (left rows in order, each with its matching right rows in order), and `Tables.CombineAll` maps the pairs one to one, in order.
- Tables.LoadData: treats a missing map file as the handled path that returns no table. The program reaches that path only when `gpd.read_file` raises `FileNotFoundError`, the one exception `load_data` catches (app2.py:75). Depending on the GeoJSON reader in use, a missing file may raise a different error, which is not caught and stops the script. That outcome is not modelled.
- Ranking.MergeRegions: the contract states which rows appear (both directions), but not their order or how often a row repeats when a region occurs several times in an input. Repeated rows do take part in the ranks. The function itself builds the rows in pandas' merge order (crime rows in order, then matching population rows in order), and `Ranking.LoadCorrelation` ranks exactly those rows.
- A `KeyError` for a factor missing from the district table is not modelled as an outcome. The factor's presence is a precondition (`Scoring.Covers`, `Dashboard.HasColumns`).
- A district name that is itself missing (NaN) in the crime table is not modelled. District names are strings.
