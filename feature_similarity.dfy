/**
 * FeatureSimilarity.getSimilarity: the maximum attainable score of the
 * query, each candidate's weighted score, its normalisation to a
 * percentage and the threshold filter.
 *
 * The accessors of the query's class are given as a value (`schema`, the
 * states of getAccessorsMap(query's class)); a comparator bound to a getter
 * by its FeatureComparator annotation is an entry of `custom`.
 */
module FeatureSimilarity {
  import opened Errors
  import opened Classes
  import opened Accessors
  import opened AccessorUtil
  import opened Features

  /** An IFeatureComparator: similar(a, b), which may throw. */
  type Comparator = (Value, Value) -> Result<real>

  /** The comparator each annotated getter names. */
  type Bindings = map<Method, Comparator>

  /** AccessorUtil.invokeGetter(attribute, obj): no accessor for the attribute is a NullPointerException. */
  function Read(w: ClassWorld, schema: StateMap, name: string, obj: Record): (r: Result<Value>)
    requires w.WellFormed() && GoodStates(w, schema)
    ensures r.Ok? ==> name in schema && r.value == Field(obj, name)
  {
    if name !in schema then Err(NullPointer) else InvokeGetter(w, schema[name], obj)
  }

  /**
   * getScore(f, query, cand): the comparator of the attribute's getter (the
   * bound one, else the default comparator of f) applied to the two values,
   * times the weight.
   */
  function Score(w: ClassWorld, schema: StateMap, custom: Bindings, f: FeatureView, query: Record, cand: Record)
    : Result<real>
    requires w.WellFormed() && GoodStates(w, schema)
  {
    if f.attribute !in schema || schema[f.attribute].getter.None? then Err(NullPointer)
    else
      var s := schema[f.attribute];
      var a :- InvokeGetter(w, s, query);
      var b :- InvokeGetter(w, s, cand);
      var sim :- if s.getter.value in custom then custom[s.getter.value](a, b) else Similar(f, a, b);
      Ok(sim * f.weight)
  }

  /** maxScore over features fs: the weights of the selected features whose value on the query is non-null. */
  function MaxScore(w: ClassWorld, schema: StateMap, fs: seq<FeatureView>, query: Record): Result<real>
    requires w.WellFormed() && GoodStates(w, schema)
    decreases |fs|
  {
    if fs == [] then Ok(0.0)
    else
      var m :- MaxScore(w, schema, fs[..|fs| - 1], query);
      var f := fs[|fs| - 1];
      if !f.selected then Ok(m)
      else
        var v :- Read(w, schema, f.attribute, query);
        Ok(if v != Null then m + f.weight else m)
  }

  /** caseScore of candidate cand over features fs: the scores of the selected features. */
  function CaseScore(w: ClassWorld, schema: StateMap, custom: Bindings, fs: seq<FeatureView>, query: Record, cand: Record)
    : Result<real>
    requires w.WellFormed() && GoodStates(w, schema)
    decreases |fs|
  {
    if fs == [] then Ok(0.0)
    else CaseScoreStep(w, schema, custom, CaseScore(w, schema, custom, fs[..|fs| - 1], query, cand), fs[|fs| - 1], query, cand)
  }

  /** One step of caseScore: a failure so far stays; a selected feature f adds its score. */
  function CaseScoreStep(w: ClassWorld, schema: StateMap, custom: Bindings, m: Result<real>, f: FeatureView,
                         query: Record, cand: Record): Result<real>
    requires w.WellFormed() && GoodStates(w, schema)
  {
    if m.Err? then Err(m.error)
    else if !f.selected then m
    else
      var s :- Score(w, schema, custom, f, query, cand);
      Ok(m.value + s)
  }

  /**
   * caseScore * 100 / maxScore in double arithmetic: a maxScore of (positive)
   * zero gives NaN for a zero score and an infinity of the score's sign otherwise.
   */
  function Percent(score: real, max: real): Double {
    if max != 0.0 then Finite(score * 100.0 / max)
    else if score > 0.0 then PositiveInfinity
    else if score < 0.0 then NegativeInfinity
    else NaN
  }

  /** similarity >= threshold on doubles: NaN passes no threshold. */
  predicate AtLeast(d: Double, threshold: real) {
    match d
    case Finite(x) => x >= threshold
    case PositiveInfinity => true
    case _ => false
  }

  /** What candidate cand puts in the result: its CaseSimilarity when it reaches the threshold. */
  function Entry(w: ClassWorld, schema: StateMap, custom: Bindings, fs: seq<FeatureView>, query: Record,
                 cand: Record, threshold: real, max: real): Option<CaseSimilarity>
    requires w.WellFormed() && GoodStates(w, schema)
  {
    match CaseScore(w, schema, custom, fs, query, cand)
    case Err(_) => None
    case Ok(s) =>
      var p := Percent(s, max);
      if AtLeast(p, threshold) then Some(CaseSimilarity(p, query, cand)) else None
  }

  /** Some candidate's score throws. */
  ghost predicate Fails(w: ClassWorld, schema: StateMap, custom: Bindings, fs: seq<FeatureView>, query: Record,
                        cands: set<Record>)
    requires w.WellFormed() && GoodStates(w, schema)
  {
    exists c :: c in cands && CaseScore(w, schema, custom, fs, query, c).Err?
  }

  /** The set getSimilarity builds from candidates cands. */
  ghost function Matches(w: ClassWorld, schema: StateMap, custom: Bindings, fs: seq<FeatureView>, query: Record,
                         cands: set<Record>, threshold: real, max: real): set<CaseSimilarity>
    requires w.WellFormed() && GoodStates(w, schema)
  {
    set c | c in cands && Entry(w, schema, custom, fs, query, c, threshold, max).Some?
      :: Entry(w, schema, custom, fs, query, c, threshold, max).value
  }

  /**
   * The answer of getSimilarity over features fs: no features is an error;
   * maxScore is computed (and may throw) before the candidates are looked
   * at; no candidates (null or empty) gives null; a candidate whose score
   * throws aborts the whole call; otherwise the matching entries.
   */
  ghost predicate Answers(w: ClassWorld, schema: StateMap, custom: Bindings, fs: seq<FeatureView>, query: Record,
                          cands: Option<set<Record>>, threshold: real, r: Result<Option<set<CaseSimilarity>>>)
    requires w.WellFormed() && GoodStates(w, schema)
  {
    if fs == [] then r == Err(NoFeatures)
    else
      match MaxScore(w, schema, fs, query)
      case Err(e) => r == Err(e)
      case Ok(max) =>
        if cands.None? || cands.value == {} then r == Ok(None)
        else if Fails(w, schema, custom, fs, query, cands.value) then
          r.Err? && exists c :: c in cands.value && CaseScore(w, schema, custom, fs, query, c) == Err(r.error)
        else r == Ok(Some(Matches(w, schema, custom, fs, query, cands.value, threshold, max)))
  }

  /** fs is what getAllFeatures builds: one selected feature of weight 1 and range 0 per accessor. */
  ghost predicate Derived(schema: StateMap, fs: seq<FeatureView>) {
    && (forall i :: 0 <= i < |fs| ==> fs[i].attribute in schema && fs[i] == FeatureView(fs[i].attribute, 1.0, 0.0, true))
    && (forall i, j :: 0 <= i < j < |fs| ==> fs[i].attribute != fs[j].attribute)
    && (forall k :: k in schema ==> exists i :: 0 <= i < |fs| && fs[i].attribute == k)
  }

  /**
   * The features argument as written: params[0] when params is given, which
   * throws when params is an empty array, as it is when getSimilarity is
   * called with no argument after the threshold.
   */
  function GivenFeatures(params: Option<seq<Option<seq<FeatureView>>>>): (r: Result<Option<seq<FeatureView>>>)
    ensures params == Some([]) ==> r == Err(IndexOutOfBounds)
    ensures params.None? ==> r == Ok(None)
    ensures params.Some? && params.value != [] ==> r == Ok(params.value[0])
  {
    match params
    case None => Ok(None)
    case Some(p) => if p == [] then Err(IndexOutOfBounds) else Ok(p[0])
  }

  /** A call with no features argument fails before looking at any feature. */
  lemma OmittedFeaturesThrow()
    ensures GivenFeatures(Some([])) == Err(IndexOutOfBounds)
  {
  }

  /** The features argument as evidently intended: an omitted argument means "derive the features". */
  function IntendedFeatures(params: Option<seq<Option<seq<FeatureView>>>>): (r: Option<seq<FeatureView>>)
    ensures params.None? || params == Some([]) ==> r.None?
    ensures GivenFeatures(params).Ok? ==> r == GivenFeatures(params).value
  {
    match params
    case None => None
    case Some(p) => if p == [] then None else p[0]
  }

  /** The features getSimilarity settles on: the given ones, else (null) the derived ones. */
  ghost predicate Chosen(schema: StateMap, given: Option<seq<FeatureView>>, fs: seq<FeatureView>) {
    if given.Some? then fs == given.value else Derived(schema, fs)
  }

  /** getAllFeatures(query): one FeatureImpl(name, 1, 0) per accessor of the query's class, in the map's order. */
  method AllFeatures(schema: StateMap) returns (fs: seq<FeatureView>)
    ensures Derived(schema, fs)
  {
    fs := [];
    var todo := schema.Keys;
    while todo != {}
      invariant todo <= schema.Keys
      invariant forall i :: 0 <= i < |fs| ==> fs[i].attribute in schema.Keys - todo
      invariant forall i :: 0 <= i < |fs| ==> fs[i] == FeatureView(fs[i].attribute, 1.0, 0.0, true)
      invariant forall i, j :: 0 <= i < j < |fs| ==> fs[i].attribute != fs[j].attribute
      invariant forall k :: k in schema.Keys - todo ==> exists i :: 0 <= i < |fs| && fs[i].attribute == k
      decreases todo
    {
      var k :| k in todo;
      ghost var before := fs;
      assert forall n :: n in schema.Keys - todo ==> exists i :: 0 <= i < |before| && before[i].attribute == n;
      fs := fs + [FeatureView(k, 1.0, 0.0, true)];
      forall n | n in schema.Keys - (todo - {k})
        ensures exists i :: 0 <= i < |fs| && fs[i].attribute == n
      {
        if n == k {
          assert fs[|fs| - 1].attribute == k;
        } else {
          assert n in schema.Keys - todo;
          var i :| 0 <= i < |before| && before[i].attribute == n;
          assert fs[i] == before[i];
        }
      }
      todo := todo - {k};
    }
    assert schema.Keys - todo == schema.Keys;
  }

  /** The maxScore loop of getSimilarity. */
  method MaxScoreLoop(w: ClassWorld, schema: StateMap, fs: seq<FeatureView>, query: Record) returns (r: Result<real>)
    requires w.WellFormed() && GoodStates(w, schema)
    ensures r == MaxScore(w, schema, fs, query)
  {
    var max := 0.0;
    for i := 0 to |fs|
      invariant MaxScore(w, schema, fs[..i], query) == Ok(max)
    {
      assert fs[..i + 1][..i] == fs[..i];
      var f := fs[i];
      if f.selected {
        var v := Read(w, schema, f.attribute, query);
        if v.Err? {
          PrefixFailsMax(w, schema, fs, query, i + 1);
          return Err(v.error);
        }
        if v.value != Null {
          max := max + f.weight;
        }
      }
    }
    assert fs[..|fs|] == fs;
    r := Ok(max);
  }

  /** The caseScore loop of getSimilarity for one candidate. */
  method CaseScoreLoop(w: ClassWorld, schema: StateMap, custom: Bindings, fs: seq<FeatureView>, query: Record, cand: Record)
    returns (r: Result<real>)
    requires w.WellFormed() && GoodStates(w, schema)
    ensures r == CaseScore(w, schema, custom, fs, query, cand)
  {
    var score := 0.0;
    for i := 0 to |fs|
      invariant CaseScore(w, schema, custom, fs[..i], query, cand) == Ok(score)
    {
      var next := CaseStep(w, schema, custom, fs, query, cand, i, score);
      if next.Err? {
        PrefixFailsCase(w, schema, custom, fs, query, cand, i + 1);
        return next;
      }
      score := next.value;
    }
    assert fs[..|fs|] == fs;
    r := Ok(score);
  }

  /** One turn of the caseScore loop: feature i scored and added when selected. */
  method CaseStep(w: ClassWorld, schema: StateMap, custom: Bindings, fs: seq<FeatureView>, query: Record, cand: Record,
                  i: nat, score: real)
    returns (r: Result<real>)
    requires w.WellFormed() && GoodStates(w, schema)
    requires i < |fs| && CaseScore(w, schema, custom, fs[..i], query, cand) == Ok(score)
    ensures r == CaseScore(w, schema, custom, fs[..i + 1], query, cand)
  {
    var f := fs[i];
    if !f.selected {
      CaseScoreSkip(w, schema, custom, fs, query, cand, i);
      return Ok(score);
    }
    var s := Score(w, schema, custom, f, query, cand);
    if s.Err? {
      CaseScoreFailsAt(w, schema, custom, fs, query, cand, i);
      return Err(s.error);
    }
    CaseScoreAdd(w, schema, custom, fs, query, cand, i);
    r := Ok(score + s.value);
  }

  /** An unselected feature adds nothing to caseScore. */
  lemma CaseScoreSkip(w: ClassWorld, schema: StateMap, custom: Bindings, fs: seq<FeatureView>, query: Record, cand: Record,
                      i: nat)
    requires w.WellFormed() && GoodStates(w, schema)
    requires i < |fs| && CaseScore(w, schema, custom, fs[..i], query, cand).Ok? && !fs[i].selected
    ensures CaseScore(w, schema, custom, fs[..i + 1], query, cand) == CaseScore(w, schema, custom, fs[..i], query, cand)
  {
    assert fs[..i + 1][..i] == fs[..i];
  }

  /** A selected feature adds its score to caseScore. */
  lemma CaseScoreAdd(w: ClassWorld, schema: StateMap, custom: Bindings, fs: seq<FeatureView>, query: Record, cand: Record,
                     i: nat)
    requires w.WellFormed() && GoodStates(w, schema)
    requires i < |fs| && CaseScore(w, schema, custom, fs[..i], query, cand).Ok?
    requires fs[i].selected && Score(w, schema, custom, fs[i], query, cand).Ok?
    ensures CaseScore(w, schema, custom, fs[..i + 1], query, cand)
         == Ok(CaseScore(w, schema, custom, fs[..i], query, cand).value + Score(w, schema, custom, fs[i], query, cand).value)
  {
    assert fs[..i + 1][..i] == fs[..i];
  }

  /** A selected feature whose score throws makes the longer prefix throw the same. */
  lemma CaseScoreFailsAt(w: ClassWorld, schema: StateMap, custom: Bindings, fs: seq<FeatureView>, query: Record,
                         cand: Record, i: nat)
    requires w.WellFormed() && GoodStates(w, schema)
    requires i < |fs| && CaseScore(w, schema, custom, fs[..i], query, cand).Ok?
    requires fs[i].selected && Score(w, schema, custom, fs[i], query, cand).Err?
    ensures CaseScore(w, schema, custom, fs[..i + 1], query, cand) == Err(Score(w, schema, custom, fs[i], query, cand).error)
  {
    assert fs[..i + 1][..i] == fs[..i];
  }

  /** An error in the maxScore of a prefix is the maxScore of the whole sequence. */
  lemma {:induction false} PrefixFailsMax(w: ClassWorld, schema: StateMap, fs: seq<FeatureView>, query: Record, n: nat)
    requires w.WellFormed() && GoodStates(w, schema)
    requires n <= |fs| && MaxScore(w, schema, fs[..n], query).Err?
    ensures MaxScore(w, schema, fs, query) == MaxScore(w, schema, fs[..n], query)
    decreases |fs| - n
  {
    if n < |fs| {
      assert fs[..n + 1][..n] == fs[..n];
      PrefixFailsMax(w, schema, fs, query, n + 1);
    } else {
      assert fs[..n] == fs;
    }
  }

  /** An error in the caseScore of a prefix is the caseScore of the whole sequence. */
  lemma {:induction false} PrefixFailsCase(w: ClassWorld, schema: StateMap, custom: Bindings, fs: seq<FeatureView>,
                                           query: Record, cand: Record, n: nat)
    requires w.WellFormed() && GoodStates(w, schema)
    requires n <= |fs| && CaseScore(w, schema, custom, fs[..n], query, cand).Err?
    ensures CaseScore(w, schema, custom, fs, query, cand) == CaseScore(w, schema, custom, fs[..n], query, cand)
    decreases |fs| - n
  {
    if n < |fs| {
      assert fs[..n + 1][..n] == fs[..n];
      PrefixFailsCase(w, schema, custom, fs, query, cand, n + 1);
    } else {
      assert fs[..n] == fs;
    }
  }

  /** Adding one candidate adds at most its own entry. */
  lemma MatchesAdd(w: ClassWorld, schema: StateMap, custom: Bindings, fs: seq<FeatureView>, query: Record,
                   done: set<Record>, c: Record, threshold: real, max: real)
    requires w.WellFormed() && GoodStates(w, schema)
    ensures Matches(w, schema, custom, fs, query, done + {c}, threshold, max)
         == Matches(w, schema, custom, fs, query, done, threshold, max)
          + (var e := Entry(w, schema, custom, fs, query, c, threshold, max); if e.Some? then {e.value} else {})
  {
  }

  /** The candidate loop of getSimilarity: every candidate is scored, and the first failure aborts. */
  method Rank(w: ClassWorld, schema: StateMap, custom: Bindings, fs: seq<FeatureView>, query: Record,
              cands: set<Record>, threshold: real, max: real)
    returns (r: Result<set<CaseSimilarity>>)
    requires w.WellFormed() && GoodStates(w, schema)
    ensures r.Err? <==> Fails(w, schema, custom, fs, query, cands)
    ensures r.Err? ==> exists c :: c in cands && CaseScore(w, schema, custom, fs, query, c) == Err(r.error)
    ensures r.Ok? ==> r.value == Matches(w, schema, custom, fs, query, cands, threshold, max)
  {
    var cases: set<CaseSimilarity> := {};
    var todo := cands;
    while todo != {}
      invariant todo <= cands
      invariant !Fails(w, schema, custom, fs, query, cands - todo)
      invariant cases == Matches(w, schema, custom, fs, query, cands - todo, threshold, max)
      decreases todo
    {
      var c :| c in todo;
      var s := CaseScoreLoop(w, schema, custom, fs, query, c);
      if s.Err? {
        assert CaseScore(w, schema, custom, fs, query, c).Err?;
        return Err(s.error);
      }
      var p := Percent(s.value, max);
      if AtLeast(p, threshold) {
        cases := cases + {CaseSimilarity(p, query, c)};
      }
      MatchesAdd(w, schema, custom, fs, query, cands - todo, c, threshold, max);
      assert cands - (todo - {c}) == (cands - todo) + {c};
      todo := todo - {c};
    }
    assert cands - todo == cands;
    r := Ok(cases);
  }

  /**
   * getSimilarity(query, cands, threshold, params...): the features are
   * params[0], or the derived ones when those are null; the result is what
   * Answers describes for the features settled on.
   */
  method GetSimilarity(w: ClassWorld, schema: StateMap, custom: Bindings, query: Record, cands: Option<set<Record>>,
                       threshold: real, params: Option<seq<Option<seq<FeatureView>>>>)
    returns (r: Result<Option<set<CaseSimilarity>>>, ghost fs: seq<FeatureView>)
    requires w.WellFormed() && GoodStates(w, schema)
    ensures params == Some([]) ==> r == Err(IndexOutOfBounds)
    ensures params != Some([]) ==> Chosen(schema, GivenFeatures(params).value, fs)
    ensures params != Some([]) ==> Answers(w, schema, custom, fs, query, cands, threshold, r)
  {
    fs := [];
    var given := GivenFeatures(params);
    if given.Err? {
      return Err(given.error), fs;
    }
    r, fs := Similarity(w, schema, custom, query, cands, threshold, given.value);
  }

  /**
   * getSimilarity as evidently intended: a call without the features
   * argument derives the features instead of throwing.
   */
  method GetSimilarityIntended(w: ClassWorld, schema: StateMap, custom: Bindings, query: Record, cands: Option<set<Record>>,
                               threshold: real, params: Option<seq<Option<seq<FeatureView>>>>)
    returns (r: Result<Option<set<CaseSimilarity>>>, ghost fs: seq<FeatureView>)
    requires w.WellFormed() && GoodStates(w, schema)
    ensures params == Some([]) ==> Derived(schema, fs)
    ensures Chosen(schema, IntendedFeatures(params), fs)
    ensures Answers(w, schema, custom, fs, query, cands, threshold, r)
  {
    r, fs := Similarity(w, schema, custom, query, cands, threshold, IntendedFeatures(params));
  }

  /** getSimilarity once the features argument is unpacked (null: derive them). */
  method Similarity(w: ClassWorld, schema: StateMap, custom: Bindings, query: Record, cands: Option<set<Record>>,
                    threshold: real, given: Option<seq<FeatureView>>)
    returns (r: Result<Option<set<CaseSimilarity>>>, ghost fs: seq<FeatureView>)
    requires w.WellFormed() && GoodStates(w, schema)
    ensures Chosen(schema, given, fs)
    ensures Answers(w, schema, custom, fs, query, cands, threshold, r)
  {
    var features: seq<FeatureView>;
    if given.Some? {
      features := given.value;
    } else {
      features := AllFeatures(schema);
    }
    fs := features;
    if features == [] {
      return Err(NoFeatures), fs;
    }
    var max := MaxScoreLoop(w, schema, features, query);
    if max.Err? {
      return Err(max.error), fs;
    }
    if cands.None? || cands.value == {} {
      return Ok(None), fs;
    }
    var cases := Rank(w, schema, custom, features, query, cands.value, threshold, max.value);
    if cases.Err? {
      return Err(cases.error), fs;
    }
    r := Ok(Some(cases.value));
  }

  // ----- properties -----

  /** The features kept by the selection test: the others play no part in either sum. */
  function SelectedOnly(fs: seq<FeatureView>): (r: seq<FeatureView>)
    ensures forall i :: 0 <= i < |r| ==> r[i].selected
    ensures |r| <= |fs|
    decreases |fs|
  {
    if fs == [] then []
    else SelectedOnly(fs[..|fs| - 1]) + (if fs[|fs| - 1].selected then [fs[|fs| - 1]] else [])
  }

  /** Unselected features play no part in maxScore. */
  lemma {:induction false} MaxIgnoresUnselected(w: ClassWorld, schema: StateMap, fs: seq<FeatureView>, query: Record)
    requires w.WellFormed() && GoodStates(w, schema)
    ensures MaxScore(w, schema, SelectedOnly(fs), query) == MaxScore(w, schema, fs, query)
    decreases |fs|
  {
    if fs != [] {
      var init, f := fs[..|fs| - 1], fs[|fs| - 1];
      assert fs == init + [f];
      MaxIgnoresUnselected(w, schema, init, query);
      if f.selected {
        assert SelectedOnly(fs) == SelectedOnly(init) + [f];
        MaxScoreSnocSame(w, schema, SelectedOnly(init), init, f, query);
      } else {
        assert SelectedOnly(fs) == SelectedOnly(init);
        MaxScoreSnocSkip(w, schema, init, f, query);
      }
    }
  }

  /** An unselected feature at the end adds nothing to maxScore. */
  lemma MaxScoreSnocSkip(w: ClassWorld, schema: StateMap, xs: seq<FeatureView>, f: FeatureView, query: Record)
    requires w.WellFormed() && GoodStates(w, schema) && !f.selected
    ensures MaxScore(w, schema, xs + [f], query) == MaxScore(w, schema, xs, query)
  {
    assert (xs + [f])[..|xs|] == xs;
  }

  /** Two feature sequences of equal maxScore stay equal when the same feature is added to both. */
  lemma MaxScoreSnocSame(w: ClassWorld, schema: StateMap, xs: seq<FeatureView>, ys: seq<FeatureView>,
                         f: FeatureView, query: Record)
    requires w.WellFormed() && GoodStates(w, schema)
    requires MaxScore(w, schema, xs, query) == MaxScore(w, schema, ys, query)
    ensures MaxScore(w, schema, xs + [f], query) == MaxScore(w, schema, ys + [f], query)
  {
    assert (xs + [f])[..|xs|] == xs;
    assert (ys + [f])[..|ys|] == ys;
  }

  /** An unselected feature at the end adds nothing to caseScore. */
  lemma CaseScoreSnocSkip(w: ClassWorld, schema: StateMap, custom: Bindings, xs: seq<FeatureView>, f: FeatureView,
                          query: Record, cand: Record)
    requires w.WellFormed() && GoodStates(w, schema) && !f.selected
    ensures CaseScore(w, schema, custom, xs + [f], query, cand) == CaseScore(w, schema, custom, xs, query, cand)
  {
    assert (xs + [f])[..|xs|] == xs;
  }

  /** Two feature sequences of equal caseScore stay equal when the same feature is added to both. */
  lemma CaseScoreSnocSame(w: ClassWorld, schema: StateMap, custom: Bindings, xs: seq<FeatureView>, ys: seq<FeatureView>,
                          f: FeatureView, query: Record, cand: Record)
    requires w.WellFormed() && GoodStates(w, schema)
    requires CaseScore(w, schema, custom, xs, query, cand) == CaseScore(w, schema, custom, ys, query, cand)
    ensures CaseScore(w, schema, custom, xs + [f], query, cand) == CaseScore(w, schema, custom, ys + [f], query, cand)
  {
    assert (xs + [f])[..|xs|] == xs;
    assert (ys + [f])[..|ys|] == ys;
  }

  /** Unselected features play no part in a candidate's score. */
  lemma {:induction false} CaseIgnoresUnselected(w: ClassWorld, schema: StateMap, custom: Bindings, fs: seq<FeatureView>,
                                                 query: Record, cand: Record)
    requires w.WellFormed() && GoodStates(w, schema)
    ensures CaseScore(w, schema, custom, SelectedOnly(fs), query, cand) == CaseScore(w, schema, custom, fs, query, cand)
    decreases |fs|
  {
    if fs != [] {
      var init, f := fs[..|fs| - 1], fs[|fs| - 1];
      assert fs == init + [f];
      CaseIgnoresUnselected(w, schema, custom, init, query, cand);
      if f.selected {
        assert SelectedOnly(fs) == SelectedOnly(init) + [f];
        CaseScoreSnocSame(w, schema, custom, SelectedOnly(init), init, f, query, cand);
      } else {
        assert SelectedOnly(fs) == SelectedOnly(init);
        CaseScoreSnocSkip(w, schema, custom, init, f, query, cand);
      }
    }
  }

  /** Every feature weight is non-negative. */
  ghost predicate NonNegativeWeights(fs: seq<FeatureView>) {
    forall i :: 0 <= i < |fs| ==> fs[i].weight >= 0.0
  }

  /**
   * With the default comparator and a non-negative weight, one feature
   * scores between 0 and its weight, and 0 when the query's value is null.
   */
  lemma ScoreWithinWeight(w: ClassWorld, schema: StateMap, f: FeatureView, query: Record, cand: Record)
    requires w.WellFormed() && GoodStates(w, schema) && f.weight >= 0.0
    requires Score(w, schema, map[], f, query, cand).Ok?
    ensures Read(w, schema, f.attribute, query).Ok?
    ensures 0.0 <= Score(w, schema, map[], f, query, cand).value
    ensures Score(w, schema, map[], f, query, cand).value
         <= (if Read(w, schema, f.attribute, query).value != Null then f.weight else 0.0)
  {
    ScoreIsWeighted(w, schema, f, query, cand);
    var s := schema[f.attribute];
    var a, b := InvokeGetter(w, s, query).value, InvokeGetter(w, s, cand).value;
    var sim := Similar(f, a, b).value;
    ScaleWithin(sim, f.weight);
  }

  /** A default score that does not throw is the comparator's value times the weight. */
  lemma ScoreIsWeighted(w: ClassWorld, schema: StateMap, f: FeatureView, query: Record, cand: Record)
    requires w.WellFormed() && GoodStates(w, schema)
    requires Score(w, schema, map[], f, query, cand).Ok?
    ensures f.attribute in schema
    ensures InvokeGetter(w, schema[f.attribute], query).Ok? && InvokeGetter(w, schema[f.attribute], cand).Ok?
    ensures Read(w, schema, f.attribute, query) == InvokeGetter(w, schema[f.attribute], query)
    ensures var a, b := InvokeGetter(w, schema[f.attribute], query).value, InvokeGetter(w, schema[f.attribute], cand).value;
            && Similar(f, a, b).Ok?
            && (a == Null ==> Similar(f, a, b).value == 0.0)
            && Score(w, schema, map[], f, query, cand).value == Similar(f, a, b).value * f.weight
  {
  }

  /** A factor in [0, 1] scales a non-negative weight to within [0, weight]. */
  lemma ScaleWithin(sim: real, weight: real)
    requires 0.0 <= sim <= 1.0 && weight >= 0.0
    ensures 0.0 <= sim * weight <= weight
    ensures sim == 0.0 ==> sim * weight == 0.0
  {
    assert (1.0 - sim) * weight >= 0.0;
  }

  /**
   * With the default comparator and non-negative weights, a candidate's
   * score lies between 0 and the query's maxScore, which is then known.
   */
  lemma {:induction false} CaseScoreWithinMax(w: ClassWorld, schema: StateMap, fs: seq<FeatureView>, query: Record,
                                              cand: Record)
    requires w.WellFormed() && GoodStates(w, schema) && NonNegativeWeights(fs)
    requires CaseScore(w, schema, map[], fs, query, cand).Ok?
    ensures MaxScore(w, schema, fs, query).Ok?
    ensures 0.0 <= CaseScore(w, schema, map[], fs, query, cand).value <= MaxScore(w, schema, fs, query).value
    decreases |fs|
  {
    if fs != [] {
      var init, f := fs[..|fs| - 1], fs[|fs| - 1];
      assert NonNegativeWeights(init) by {
        forall i | 0 <= i < |init| ensures init[i].weight >= 0.0 {
          assert init[i] == fs[i];
        }
      }
      CaseScoreWithinMax(w, schema, init, query, cand);
      if f.selected {
        assert f.weight >= 0.0 by {
          assert f == fs[|fs| - 1];
        }
        ScoreWithinWeight(w, schema, f, query, cand);
      }
    }
  }

  /**
   * With the default comparator and non-negative weights every emitted
   * similarity is a finite percentage between 0 and 100 (a zero maxScore
   * only produces NaN, which passes no threshold).
   */
  lemma PercentagesInRange(w: ClassWorld, schema: StateMap, fs: seq<FeatureView>, query: Record,
                           cands: set<Record>, threshold: real, e: CaseSimilarity)
    requires w.WellFormed() && GoodStates(w, schema) && NonNegativeWeights(fs)
    requires MaxScore(w, schema, fs, query).Ok?
    requires e in Matches(w, schema, map[], fs, query, cands, threshold, MaxScore(w, schema, fs, query).value)
    ensures e.value.Finite? && 0.0 <= e.value.x <= 100.0
    ensures e.baseCase == query && e.similarCase in cands
  {
    var max := MaxScore(w, schema, fs, query).value;
    var c :| c in cands && Entry(w, schema, map[], fs, query, c, threshold, max) == Some(e);
    CaseScoreWithinMax(w, schema, fs, query, c);
    PassingPercent(CaseScore(w, schema, map[], fs, query, c).value, max, threshold);
  }

  /** A percentage of a score within [0, maxScore] that passes a threshold is finite and within [0, 100]. */
  lemma PassingPercent(score: real, max: real, threshold: real)
    requires 0.0 <= score <= max && AtLeast(Percent(score, max), threshold)
    ensures Percent(score, max).Finite? && 0.0 <= Percent(score, max).x <= 100.0
  {
    if max != 0.0 {
      PercentWithin(score, max);
    }
  }

  /** A score between 0 and a non-zero maxScore is a percentage between 0 and 100. */
  lemma PercentWithin(score: real, max: real)
    requires 0.0 <= score <= max && max != 0.0
    ensures 0.0 <= score * 100.0 / max <= 100.0
    ensures score == max ==> score * 100.0 / max == 100.0
  {
    var p := score * 100.0 / max;
    assert p * max == score * 100.0;
    if p > 100.0 {
      MulMono(100.0, p, max);
    }
    if p < 0.0 {
      MulMono(p, 0.0, max);
    }
  }

  lemma MulMono(a: real, b: real, c: real)
    requires a <= b && c > 0.0
    ensures a * c <= b * c
  {
    assert (b - a) * c >= 0.0;
  }

  /** Raising the threshold can only remove entries. */
  lemma ThresholdMonotone(w: ClassWorld, schema: StateMap, custom: Bindings, fs: seq<FeatureView>, query: Record,
                          cands: set<Record>, low: real, high: real, max: real)
    requires w.WellFormed() && GoodStates(w, schema) && low <= high
    ensures Matches(w, schema, custom, fs, query, cands, high, max)
         <= Matches(w, schema, custom, fs, query, cands, low, max)
  {
    forall e | e in Matches(w, schema, custom, fs, query, cands, high, max)
      ensures e in Matches(w, schema, custom, fs, query, cands, low, max)
    {
      var c :| c in cands && Entry(w, schema, custom, fs, query, c, high, max) == Some(e);
      assert Entry(w, schema, custom, fs, query, c, low, max) == Some(e);
    }
  }

  /** A candidate is in the result, paired with the query, exactly when its percentage reaches the threshold. */
  lemma MatchesMembership(w: ClassWorld, schema: StateMap, custom: Bindings, fs: seq<FeatureView>, query: Record,
                          cands: set<Record>, threshold: real, max: real, c: Record)
    requires w.WellFormed() && GoodStates(w, schema) && c in cands
    requires CaseScore(w, schema, custom, fs, query, c).Ok?
    ensures var p := Percent(CaseScore(w, schema, custom, fs, query, c).value, max);
            CaseSimilarity(p, query, c) in Matches(w, schema, custom, fs, query, cands, threshold, max)
            <==> AtLeast(p, threshold)
  {
    var p := Percent(CaseScore(w, schema, custom, fs, query, c).value, max);
    if CaseSimilarity(p, query, c) in Matches(w, schema, custom, fs, query, cands, threshold, max) {
      var d :| d in cands && Entry(w, schema, custom, fs, query, d, threshold, max) == Some(CaseSimilarity(p, query, c));
      assert d == c;
    }
  }

  /** The query scored against itself on one feature: its weight when its value is non-null, 0 when null. */
  lemma SelfScoreOne(w: ClassWorld, schema: StateMap, f: FeatureView, query: Record)
    requires w.WellFormed() && GoodStates(w, schema)
    ensures Read(w, schema, f.attribute, query).Err? ==>
              Score(w, schema, map[], f, query, query) == Err(Read(w, schema, f.attribute, query).error)
    ensures Read(w, schema, f.attribute, query).Ok? ==>
              Score(w, schema, map[], f, query, query)
              == Ok(if Read(w, schema, f.attribute, query).value != Null then f.weight else 0.0)
  {
    if f.attribute in schema && schema[f.attribute].getter.Some? {
      var a := InvokeGetter(w, schema[f.attribute], query);
      if a.Ok? {
        SimilarReflexive(f, a.value);
      }
    }
  }

  /** Scored with the default comparators, the query against itself reaches exactly maxScore, errors included. */
  lemma {:induction false} SelfScoreIsMax(w: ClassWorld, schema: StateMap, fs: seq<FeatureView>, query: Record)
    requires w.WellFormed() && GoodStates(w, schema)
    ensures CaseScore(w, schema, map[], fs, query, query) == MaxScore(w, schema, fs, query)
    decreases |fs|
  {
    if fs != [] {
      var f := fs[|fs| - 1];
      SelfScoreIsMax(w, schema, fs[..|fs| - 1], query);
      SelfScoreOne(w, schema, f, query);
    }
  }

  /** The query scores 100 against itself whenever its maxScore is positive. */
  lemma SelfIsHundredPercent(w: ClassWorld, schema: StateMap, fs: seq<FeatureView>, query: Record)
    requires w.WellFormed() && GoodStates(w, schema)
    requires MaxScore(w, schema, fs, query).Ok? && MaxScore(w, schema, fs, query).value > 0.0
    ensures CaseScore(w, schema, map[], fs, query, query).Ok?
    ensures Percent(CaseScore(w, schema, map[], fs, query, query).value, MaxScore(w, schema, fs, query).value)
         == Finite(100.0)
  {
    SelfScoreIsMax(w, schema, fs, query);
    var m := MaxScore(w, schema, fs, query).value;
    PercentWithin(m, m);
  }

  /**
   * The worked example: an age within range 10 at distance 2 and an equal
   * city, both weighted 1, give 1.8 out of 2, that is 90 percent.
   */
  lemma AgeAndCityExample(w: ClassWorld, schema: StateMap, query: Record, cand: Record, c: ClassName)
    requires w.WellFormed() && GoodStates(w, schema)
    requires Read(w, schema, "age", query) == Ok(Num(c, 30.0)) && Read(w, schema, "age", cand) == Ok(Num(c, 32.0))
    requires Read(w, schema, "city", query) == Ok(Text("NY")) && Read(w, schema, "city", cand) == Ok(Text("NY"))
    ensures var fs := [FeatureView("age", 1.0, 10.0, true), FeatureView("city", 1.0, 0.0, true)];
            && MaxScore(w, schema, fs, query) == Ok(2.0)
            && CaseScore(w, schema, map[], fs, query, cand) == Ok(1.8)
            && Percent(1.8, 2.0) == Finite(90.0)
  {
    var fs := [FeatureView("age", 1.0, 10.0, true), FeatureView("city", 1.0, 0.0, true)];
    assert fs[..1] == [fs[0]];
    assert fs[..1][..0] == [];
    assert MaxScore(w, schema, fs[..1], query) == Ok(1.0);
    AgeScore(w, schema, query, cand, c);
    CityScore(w, schema, query, cand);
    assert CaseScore(w, schema, map[], fs[..1], query, cand) == Ok(0.8);
  }

  /** The age feature of the worked example: distance 2 within range 10 and weight 1 score 0.8. */
  lemma AgeScore(w: ClassWorld, schema: StateMap, query: Record, cand: Record, c: ClassName)
    requires w.WellFormed() && GoodStates(w, schema)
    requires Read(w, schema, "age", query) == Ok(Num(c, 30.0)) && Read(w, schema, "age", cand) == Ok(Num(c, 32.0))
    ensures Score(w, schema, map[], FeatureView("age", 1.0, 10.0, true), query, cand) == Ok(0.8)
  {
    var f := FeatureView("age", 1.0, 10.0, true);
    assert Abs(30.0 - 32.0) == 2.0;
    assert Similar(f, Num(c, 30.0), Num(c, 32.0)) == Ok(0.8);
    ScoreFromReads(w, schema, f, query, cand, Num(c, 30.0), Num(c, 32.0), 0.8);
  }

  /** The city feature of the worked example: equal texts and weight 1 score 1. */
  lemma CityScore(w: ClassWorld, schema: StateMap, query: Record, cand: Record)
    requires w.WellFormed() && GoodStates(w, schema)
    requires Read(w, schema, "city", query) == Ok(Text("NY")) && Read(w, schema, "city", cand) == Ok(Text("NY"))
    ensures Score(w, schema, map[], FeatureView("city", 1.0, 0.0, true), query, cand) == Ok(1.0)
  {
    var f := FeatureView("city", 1.0, 0.0, true);
    assert Similar(f, Text("NY"), Text("NY")) == Ok(1.0);
    ScoreFromReads(w, schema, f, query, cand, Text("NY"), Text("NY"), 1.0);
  }

  /** With the default comparator, a feature scores its weight times the similarity of the two values read. */
  lemma ScoreFromReads(w: ClassWorld, schema: StateMap, f: FeatureView, query: Record, cand: Record, a: Value, b: Value,
                       sim: real)
    requires w.WellFormed() && GoodStates(w, schema)
    requires Read(w, schema, f.attribute, query) == Ok(a) && Read(w, schema, f.attribute, cand) == Ok(b)
    requires Similar(f, a, b) == Ok(sim)
    ensures Score(w, schema, map[], f, query, cand) == Ok(sim * f.weight)
  {
    var s := schema[f.attribute];
    assert InvokeGetter(w, s, query).Extract() == a && InvokeGetter(w, s, cand).Extract() == b;
    assert Similar(f, a, b).Extract() == sim;
    assert Score(w, schema, map[], f, query, cand).value == sim * f.weight;
  }
}
