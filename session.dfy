/**
 * The per-session weight dictionaries of the net-risk tab. The session state
 * holds one dictionary per category; each is created from fixed defaults the
 * first time the tab runs, and on every run each factor's weight is then
 * overwritten, one factor at a time, by the value of that factor's slider.
 */
module Session {
  import opened Weights

  datatype Category = Risk | Safety

  const RISK_FACTORS: seq<string> :=
    ["유흥업소 수", "초등학교 수", "중,고등학교 수", "요리 주점", "등록인구", "여성비율", "외국인비율"]

  const SAFETY_FACTORS: seq<string> :=
    ["치안기관", "어린이용 CCTV 수", "안전비상벨 수", "기타 CCTV 수",
     "시설물 CCTV 수", "가로등 수", "보안등 수", "생활방범 CCTV 수"]

  /**
   * The values of the default dictionaries. Their keys are exactly the factor
   * lists above, in the same order, so each default is the two paired up.
   */
  const INITIAL_RISK_VALUES: seq<real> := [0.05, 0.04, 0.03, 0.02, 0.50, 0.10, 0.05]

  const INITIAL_SAFETY_VALUES: seq<real> := [0.25, 0.20, 0.20, 0.05, 0.10, 0.06, 0.06, 0.40]

  /** Slider bounds and the fallback weight of a factor missing from the dictionary. */
  const SLIDER_MIN: real := 0.0
  const SLIDER_MAX: real := 0.5
  const MISSING_WEIGHT: real := 0.1

  function Factors(c: Category): seq<string>
  {
    match c
    case Risk => RISK_FACTORS
    case Safety => SAFETY_FACTORS
  }

  function InitialValues(c: Category): seq<real>
  {
    match c
    case Risk => INITIAL_RISK_VALUES
    case Safety => INITIAL_SAFETY_VALUES
  }

  /** The dict literal `{fs[0]: ws[0], fs[1]: ws[1], ...}` for distinct keys `fs`. */
  function Pair(fs: seq<string>, ws: seq<real>): (r: Dict)
    requires |fs| == |ws|
    ensures Keys(r) == fs
    ensures forall i :: 0 <= i < |r| ==> r[i].weight == ws[i]
  {
    seq(|fs|, i requires 0 <= i < |fs| => Entry(fs[i], ws[i]))
  }

  /** `initial_risk_weights` and `initial_safety_weights`. */
  function Initial(c: Category): Dict
  {
    Pair(Factors(c), InitialValues(c))
  }

  /** The defaults are a valid weight dictionary whose keys are the category's factors. */
  lemma InitialValid(c: Category)
    ensures UniqueKeys(Initial(c)) && AllWithin(Initial(c), SLIDER_MIN, SLIDER_MAX)
    ensures Keys(Initial(c)) == Factors(c)
  {
    match c
    case Risk => RiskDefaults();
    case Safety => SafetyDefaults();
    var d := Initial(c);
    UniqueByHeads(d, Heads(c));
  }

  /** The first letters of the factor names; they already differ pairwise. */
  function Heads(c: Category): seq<char>
  {
    match c
    case Risk => ['유', '초', '중', '요', '등', '여', '외']
    case Safety => ['치', '어', '안', '기', '시', '가', '보', '생']
  }

  lemma RiskDefaults()
    ensures |InitialValues(Risk)| == |Factors(Risk)| == |Heads(Risk)|
    ensures forall i :: 0 <= i < |RISK_FACTORS| ==> RISK_FACTORS[i] != [] && RISK_FACTORS[i][0] == Heads(Risk)[i]
    ensures forall i, j :: 0 <= i < j < |Heads(Risk)| ==> Heads(Risk)[i] != Heads(Risk)[j]
    ensures forall i :: 0 <= i < |INITIAL_RISK_VALUES| ==> SLIDER_MIN <= INITIAL_RISK_VALUES[i] <= SLIDER_MAX
  {
  }

  lemma SafetyDefaults()
    ensures |InitialValues(Safety)| == |Factors(Safety)| == |Heads(Safety)|
    ensures forall i :: 0 <= i < |SAFETY_FACTORS| ==> SAFETY_FACTORS[i] != [] && SAFETY_FACTORS[i][0] == Heads(Safety)[i]
    ensures forall i, j :: 0 <= i < j < |Heads(Safety)| ==> Heads(Safety)[i] != Heads(Safety)[j]
    ensures forall i :: 0 <= i < |INITIAL_SAFETY_VALUES| ==> SLIDER_MIN <= INITIAL_SAFETY_VALUES[i] <= SLIDER_MAX
  {
  }

  /** Factor names that already differ in their first letter are distinct. */
  lemma UniqueByHeads(d: Dict, heads: seq<char>)
    requires |heads| == |d|
    requires forall i :: 0 <= i < |d| ==> d[i].factor != [] && d[i].factor[0] == heads[i]
    requires forall i, j :: 0 <= i < j < |heads| ==> heads[i] != heads[j]
    ensures UniqueKeys(d)
  {
  }

  /** The values a slider widget can hold. */
  predicate InSliderRange(chosen: map<string, real>)
  {
    forall f :: f in chosen ==> SLIDER_MIN <= chosen[f] <= SLIDER_MAX
  }

  /**
   * The value `st.slider` returns for factor `f`: the position the user left
   * the widget at, or the default passed in when the widget holds none yet.
   */
  function Slider(chosen: map<string, real>, f: string, default: real): (r: real)
    ensures f !in chosen ==> r == default
    ensures InSliderRange(chosen) && SLIDER_MIN <= default <= SLIDER_MAX ==> SLIDER_MIN <= r <= SLIDER_MAX
  {
    if f in chosen then chosen[f] else default
  }

  lemma {:induction false} GetWithin(d: Dict, k: string, default: real, lo: real, hi: real)
    requires AllWithin(d, lo, hi) && lo <= default <= hi
    ensures lo <= Get(d, k, default) <= hi
  {
    if d != [] && d[0].factor != k {
      GetWithin(d[1..], k, default, lo, hi);
    }
  }

  lemma {:induction false} PutWithin(d: Dict, k: string, v: real, lo: real, hi: real)
    requires AllWithin(d, lo, hi) && lo <= v <= hi
    ensures AllWithin(Put(d, k, v), lo, hi)
  {
    if d != [] && d[0].factor != k {
      PutWithin(d[1..], k, v, lo, hi);
    }
  }

  /** One iteration of the slider loop: `weights[f] = st.slider(..., weights.get(f, 0.1), ...)`. */
  function SlideOne(d: Dict, f: string, chosen: map<string, real>): Dict
  {
    Put(d, f, Slider(chosen, f, Get(d, f, MISSING_WEIGHT)))
  }

  /** The dictionary after the slider loop has run over `factors`, in order. */
  function Slid(d: Dict, factors: seq<string>, chosen: map<string, real>): Dict
  {
    if factors == [] then d
    else SlideOne(Slid(d, factors[..|factors| - 1], chosen), factors[|factors| - 1], chosen)
  }

  /** For slider values, the slider loop keeps every weight in the slider range [0.0, 0.5]. */
  lemma {:induction false} SlidWithin(d: Dict, factors: seq<string>, chosen: map<string, real>)
    requires AllWithin(d, SLIDER_MIN, SLIDER_MAX) && InSliderRange(chosen)
    ensures AllWithin(Slid(d, factors, chosen), SLIDER_MIN, SLIDER_MAX)
  {
    if factors != [] {
      var n := |factors| - 1;
      var prev := Slid(d, factors[..n], chosen);
      SlidWithin(d, factors[..n], chosen);
      GetWithin(prev, factors[n], MISSING_WEIGHT, SLIDER_MIN, SLIDER_MAX);
      var v := Slider(chosen, factors[n], Get(prev, factors[n], MISSING_WEIGHT));
      PutWithin(prev, factors[n], v, SLIDER_MIN, SLIDER_MAX);
    }
  }

  /** The slider loop never duplicates a key. */
  lemma {:induction false} SlidUnique(d: Dict, factors: seq<string>, chosen: map<string, real>)
    requires UniqueKeys(d)
    ensures UniqueKeys(Slid(d, factors, chosen))
  {
    if factors != [] {
      var n := |factors| - 1;
      var prev := Slid(d, factors[..n], chosen);
      SlidUnique(d, factors[..n], chosen);
      PutUnique(prev, factors[n], Slider(chosen, factors[n], Get(prev, factors[n], MISSING_WEIGHT)));
    }
  }

  /** A member of `s` other than its last element is a member of the rest. */
  lemma InPrefix(s: seq<string>, x: string)
    requires x in s && s != [] && x != s[|s| - 1]
    ensures x in s[..|s| - 1]
  {
    var k :| 0 <= k < |s| && s[k] == x;
    assert s[..|s| - 1][k] == x;
  }

  /** One more iteration of the slider loop. */
  lemma SlidStep(d: Dict, factors: seq<string>, i: int, chosen: map<string, real>)
    requires 0 <= i < |factors|
    ensures Slid(d, factors[..i + 1], chosen) == SlideOne(Slid(d, factors[..i], chosen), factors[i], chosen)
  {
    assert factors[..i + 1][..i] == factors[..i];
  }

  /** After the loop every factor is a key, and every earlier key is still one. */
  lemma {:induction false} SlidKeys(d: Dict, factors: seq<string>, chosen: map<string, real>, k: string)
    requires k in factors || k in Keys(d)
    ensures k in Keys(Slid(d, factors, chosen))
  {
    if factors != [] {
      var n := |factors| - 1;
      var prev := Slid(d, factors[..n], chosen);
      if k != factors[n] {
        if k in factors { InPrefix(factors, k); }
        SlidKeys(d, factors[..n], chosen, k);
      }
      PutKeys(prev, factors[n], Slider(chosen, factors[n], Get(prev, factors[n], MISSING_WEIGHT)));
    }
  }

  /** When every visited factor is already a key, the keys and their order stay as they were. */
  lemma {:induction false} SlidKeepsKeys(d: Dict, factors: seq<string>, chosen: map<string, real>)
    requires forall f :: f in factors ==> f in Keys(d)
    ensures Keys(Slid(d, factors, chosen)) == Keys(d)
  {
    if factors != [] {
      var n := |factors| - 1;
      var prev := Slid(d, factors[..n], chosen);
      assert forall f :: f in factors[..n] ==> f in factors;
      SlidKeepsKeys(d, factors[..n], chosen);
      assert factors[n] in factors;
      PutKeys(prev, factors[n], Slider(chosen, factors[n], Get(prev, factors[n], MISSING_WEIGHT)));
    }
  }

  /** The loop adds no key other than the factors it visits. */
  lemma {:induction false} SlidKeysWithin(d: Dict, factors: seq<string>, chosen: map<string, real>, k: string)
    requires k in Keys(Slid(d, factors, chosen))
    ensures k in Keys(d) || k in factors
  {
    if factors != [] {
      var n := |factors| - 1;
      var prev := Slid(d, factors[..n], chosen);
      PutKeys(prev, factors[n], Slider(chosen, factors[n], Get(prev, factors[n], MISSING_WEIGHT)));
      if k != factors[n] {
        SlidKeysWithin(d, factors[..n], chosen, k);
        assert forall f :: f in factors[..n] ==> f in factors;
      }
    }
  }

  /** A key the loop does not visit keeps its weight. */
  lemma {:induction false} SlidOthers(d: Dict, factors: seq<string>, chosen: map<string, real>, k: string, x: real)
    requires k !in factors
    ensures Get(Slid(d, factors, chosen), k, x) == Get(d, k, x)
  {
    if factors != [] {
      var n := |factors| - 1;
      var prev := Slid(d, factors[..n], chosen);
      assert k !in factors[..n];
      SlidOthers(d, factors[..n], chosen, k, x);
      var v := Slider(chosen, factors[n], Get(prev, factors[n], MISSING_WEIGHT));
      assert Slid(d, factors, chosen) == Put(prev, factors[n], v);
      GetPutOther(prev, factors[n], v, k, x);
    }
  }

  /**
   * A visited factor ends with the slider's value, which falls back to the
   * factor's previous weight, or to 0.1 when the factor had none.
   */
  lemma {:induction false} SlidFactor(d: Dict, factors: seq<string>, chosen: map<string, real>, f: string, x: real)
    requires f in factors
    ensures Get(Slid(d, factors, chosen), f, x) == if f in chosen then chosen[f] else Get(d, f, MISSING_WEIGHT)
  {
    var n := |factors| - 1;
    var prefix, last := factors[..n], factors[n];
    var prev := Slid(d, prefix, chosen);
    var v := Slider(chosen, last, Get(prev, last, MISSING_WEIGHT));
    assert Slid(d, factors, chosen) == Put(prev, last, v);
    if f != last {
      InPrefix(factors, f);
      GetPutOther(prev, last, v, f, x);
      SlidFactor(d, prefix, chosen, f, x);
    } else {
      GetPut(prev, last, v, x);
      if f !in chosen {
        if f in prefix {
          SlidFactor(d, prefix, chosen, f, MISSING_WEIGHT);
        } else {
          SlidOthers(d, prefix, chosen, f, MISSING_WEIGHT);
        }
      }
    }
  }

  /** The default of `get` matters only for an absent key. */
  lemma {:induction false} GetPresent(d: Dict, k: string, x: real, y: real)
    requires k in Keys(d)
    ensures Get(d, k, x) == Get(d, k, y)
  {
    if d[0].factor != k {
      assert Keys(d) == [d[0].factor] + Keys(d[1..]);
      GetPresent(d[1..], k, x, y);
    }
  }

  /** Every dictionary held has distinct keys and weights in the slider range. */
  ghost predicate ValidStore(store: map<Category, Dict>)
  {
    forall c :: c in store ==> UniqueKeys(store[c]) && AllWithin(store[c], SLIDER_MIN, SLIDER_MAX)
  }

  /** The slider loop of one category keeps the store valid. */
  lemma ValidAfterSlide(store: map<Category, Dict>, c: Category, factors: seq<string>, chosen: map<string, real>)
    requires ValidStore(store) && c in store && InSliderRange(chosen)
    ensures ValidStore(store[c := Slid(store[c], factors, chosen)])
  {
    SlidWithin(store[c], factors, chosen);
    SlidUnique(store[c], factors, chosen);
  }

  /**
   * The session state (`st.session_state`): at most one weight dictionary per
   * category, each with distinct keys and every weight in the slider range.
   */
  class SessionState {
    var store: map<Category, Dict>

    ghost predicate Valid()
      reads this
    {
      ValidStore(store)
    }

    /** A new session holds no weights. */
    constructor ()
      ensures Valid() && store == map[]
    {
      store := map[];
    }

    /** The first run of the tab in a session installs the category's default dictionary; later runs keep what the session holds. */
    method InitWeights(c: Category)
      requires Valid()
      modifies this
      ensures Valid()
      ensures store == if c in old(store) then old(store) else old(store)[c := Initial(c)]
    {
      if c !in store {
        InitialValid(c);
        store := store[c := Initial(c)];
      }
    }

    /**
     * The slider loop of one category: for each factor in order, the weight is
     * overwritten by the slider's value. The other category is untouched.
     */
    method ApplySliders(c: Category, factors: seq<string>, chosen: map<string, real>)
      requires Valid() && c in store && InSliderRange(chosen)
      modifies this
      ensures Valid()
      ensures store == old(store)[c := Slid(old(store)[c], factors, chosen)]
      ensures forall c' :: c' != c && c' in old(store) ==> c' in store && store[c'] == old(store)[c']
    {
      ghost var d0 := store[c];
      var i := 0;
      while i < |factors|
        invariant 0 <= i <= |factors|
        invariant store == old(store)[c := Slid(d0, factors[..i], chosen)]
      {
        SlidStep(d0, factors, i, chosen);
        store := store[c := SlideOne(store[c], factors[i], chosen)];
        i := i + 1;
      }
      assert factors[..i] == factors;
      ValidAfterSlide(old(store), c, factors, chosen);
    }

    /**
     * One run of a category's part of the tab: the defaults are installed when
     * the session holds none, then the slider loop runs over the category's factors.
     */
    method RunSliders(c: Category, chosen: map<string, real>)
      requires Valid() && InSliderRange(chosen)
      modifies this
      ensures Valid()
      ensures c in store && store[c] == WeightsAfterRun(old(store), c, chosen)
      ensures store.Keys == old(store).Keys + {c}
      ensures forall c' :: c' != c && c' in old(store) ==> store[c'] == old(store)[c']
    {
      InitWeights(c);
      ApplySliders(c, Factors(c), chosen);
    }

    /**
     * Both slider loops of the net-risk tab, risk first, then safety. Each
     * category ends with the weights its own sliders give it.
     */
    method RunTab(chosenRisk: map<string, real>, chosenSafety: map<string, real>)
      requires Valid() && InSliderRange(chosenRisk) && InSliderRange(chosenSafety)
      modifies this
      ensures Valid()
      ensures store.Keys == old(store).Keys + {Risk, Safety}
      ensures store[Risk] == WeightsAfterRun(old(store), Risk, chosenRisk)
      ensures store[Safety] == WeightsAfterRun(old(store), Safety, chosenSafety)
    {
      RunSliders(Risk, chosenRisk);
      RunSliders(Safety, chosenSafety);
    }
  }

  /**
   * The weights a category holds after its part of a run: its own dictionary
   * (or the defaults) passed through the slider loop over its own factors.
   */
  function WeightsAfterRun(store: map<Category, Dict>, c: Category, chosen: map<string, real>): Dict
  {
    Slid(if c in store then store[c] else Initial(c), Factors(c), chosen)
  }

  /**
   * After the slider loop every visited factor is a key of the dictionary and
   * its weight lies in the slider range [0.0, 0.5].
   */
  lemma SlidersBound(d: Dict, factors: seq<string>, chosen: map<string, real>, f: string)
    requires AllWithin(d, SLIDER_MIN, SLIDER_MAX) && InSliderRange(chosen) && f in factors
    ensures f in Keys(Slid(d, factors, chosen))
    ensures SLIDER_MIN <= Get(Slid(d, factors, chosen), f, MISSING_WEIGHT) <= SLIDER_MAX
  {
    SlidKeys(d, factors, chosen, f);
    SlidWithin(d, factors, chosen);
    GetWithin(Slid(d, factors, chosen), f, MISSING_WEIGHT, SLIDER_MIN, SLIDER_MAX);
  }
}
