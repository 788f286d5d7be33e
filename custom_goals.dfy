/** Detection of custom analytics goals: a call to
    `optimizely.sendAnalyticsEvents` in an experiment's custom code. */
module CustomGoals {
  import opened Wrappers
  import opened Optimizely
  import opened Text

  const CustomCodeType := "custom_code"
  const AnalyticsCall := "optimizely.sendAnalyticsEvents"

  /** Position `i` holds the first custom-code change of `cs`. */
  ghost predicate FirstCustomCodeAt(cs: seq<CodeChange>, i: int)
  {
    0 <= i < |cs| && cs[i].kind == CustomCodeType &&
    forall j :: 0 <= j < i ==> cs[j].kind != CustomCodeType
  }

  /** `cs.find(c => c.type === "custom_code")`: the first custom-code
      change, or nothing when there is none. */
  function FindCustomCode(cs: seq<CodeChange>): (r: Option<CodeChange>)
    ensures r.None? <==> forall i :: 0 <= i < |cs| ==> cs[i].kind != CustomCodeType
    ensures r.Some? ==> exists i :: FirstCustomCodeAt(cs, i)
    ensures r.Some? ==> forall i :: FirstCustomCodeAt(cs, i) ==> cs[i] == r.value
  {
    if cs == [] then None
    else if cs[0].kind == CustomCodeType then
      assert FirstCustomCodeAt(cs, 0);
      Some(cs[0])
    else
      var r := FindCustomCode(cs[1..]);
      assert forall i :: FirstCustomCodeAt(cs, i) ==> i > 0 && FirstCustomCodeAt(cs[1..], i - 1);
      assert forall i :: FirstCustomCodeAt(cs[1..], i) ==> FirstCustomCodeAt(cs, i + 1);
      r
  }

  /** A change whose custom code calls the analytics API. */
  predicate SendsAnalytics(c: CodeChange)
  {
    c.kind == CustomCodeType && Includes(c.value, AnalyticsCall)
  }

  /** The shared code counts only through its first custom-code change. */
  ghost predicate SharedCodeSendsAnalytics(e: ExperimentDetail)
  {
    e.changes.Some? &&
    exists i :: FirstCustomCodeAt(e.changes.value, i) && Includes(e.changes.value[i].value, AnalyticsCall)
  }

  ghost predicate ActionSendsAnalytics(a: Action)
  {
    exists k :: 0 <= k < |a.changes| && SendsAnalytics(a.changes[k])
  }

  ghost predicate VariationSendsAnalytics(v: Variation)
  {
    v.actions.Some? && exists j :: 0 <= j < |v.actions.value| && ActionSendsAnalytics(v.actions.value[j])
  }

  /** In the variations every change of every action counts. */
  ghost predicate VariationCodeSendsAnalytics(e: ExperimentDetail)
  {
    e.variations.Some? &&
    exists i :: 0 <= i < |e.variations.value| && VariationSendsAnalytics(e.variations.value[i])
  }

  /** The experiment has custom goals. */
  ghost predicate HasCustomGoals(e: ExperimentDetail)
  {
    SharedCodeSendsAnalytics(e) || VariationCodeSendsAnalytics(e)
  }

  /** `checkCustomGoals(experiment)`: one flag for the shared code, one set
      while walking every variation, action and change. */
  method CheckCustomGoals(e: ExperimentDetail) returns (found: bool)
    ensures found <==> HasCustomGoals(e)
  {
    var customGoalsShared := false;
    var customGoalsVariant := false;

    if e.changes.Some? {
      var sharedJS := FindCustomCode(e.changes.value);
      if sharedJS.Some? && Includes(sharedJS.value.value, AnalyticsCall) {
        customGoalsShared := true;
      }
    }

    if e.variations.Some? {
      var variations := e.variations.value;
      for i := 0 to |variations|
        invariant customGoalsVariant <==> exists i' :: 0 <= i' < i && VariationSendsAnalytics(variations[i'])
      {
        var variation := variations[i];
        if variation.actions.Some? && |variation.actions.value| > 0 {
          var actions := variation.actions.value;
          for j := 0 to |actions|
            invariant customGoalsVariant <==>
              (exists i' :: 0 <= i' < i && VariationSendsAnalytics(variations[i'])) ||
              (exists j' :: 0 <= j' < j && ActionSendsAnalytics(actions[j']))
          {
            var changes := actions[j].changes;
            for k := 0 to |changes|
              invariant customGoalsVariant <==>
                (exists i' :: 0 <= i' < i && VariationSendsAnalytics(variations[i'])) ||
                (exists j' :: 0 <= j' < j && ActionSendsAnalytics(actions[j'])) ||
                (exists k' :: 0 <= k' < k && SendsAnalytics(changes[k']))
            {
              if changes[k].kind == CustomCodeType && Includes(changes[k].value, AnalyticsCall) {
                customGoalsVariant := true;
              }
            }
          }
        }
      }
    }

    found := customGoalsShared || customGoalsVariant;
  }

  /** No shared code and no variation code: no custom goals. */
  lemma NoCodeNoGoals(e: ExperimentDetail)
    requires e.changes.None? && (e.variations.None? || e.variations == Some([]))
    ensures !HasCustomGoals(e)
  {
  }

  /** Only the first custom-code change of the shared code is read, so a
      call in a later one is missed; in the variations a call is found
      behind any other change. */
  lemma WhereCallsAreFound()
    ensures !HasCustomGoals(ExperimentDetail("", [], None,
              Some([CodeChange(CustomCodeType, ""), CodeChange(CustomCodeType, AnalyticsCall)])))
    ensures HasCustomGoals(ExperimentDetail("", [],
              Some([Variation(5000, Some([Action([CodeChange("attribute", ""), CodeChange(CustomCodeType, AnalyticsCall)])]))]),
              None))
  {
    var shared := [CodeChange(CustomCodeType, ""), CodeChange(CustomCodeType, AnalyticsCall)];
    assert FirstCustomCodeAt(shared, 0);
    assert forall i :: FirstCustomCodeAt(shared, i) ==> i == 0;
    assert !Includes("", AnalyticsCall);
    var action := Action([CodeChange("attribute", ""), CodeChange(CustomCodeType, AnalyticsCall)]);
    assert Includes(AnalyticsCall, AnalyticsCall);
    assert SendsAnalytics(action.changes[1]);
    assert ActionSendsAnalytics(action);
    var variation := Variation(5000, Some([action]));
    assert variation.actions.value[0] == action;
    assert VariationSendsAnalytics(variation);
    var e := ExperimentDetail("", [], Some([variation]), None);
    assert e.variations.value[0] == variation;
    assert VariationCodeSendsAnalytics(e);
  }
}
