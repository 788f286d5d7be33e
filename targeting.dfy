/** The targeting check: which experiments with a new status actually reach
    real users. The two API reads it makes are oracles: `expOf` answers
    `GET /experiments/{id}` and `pageOf` answers `GET /pages/{id}`, `None`
    standing for a failed request. */
module Targeting {
  import opened Wrappers
  import opened Optimizely
  import opened Text
  import opened TrafficAllocation
  import opened CustomGoals
  import opened Aggregation

  const AndToken := "and"
  const QaPageMarker := "devtest"

  /** The QA audience id as the source picks it: it compares the project id
      with the TH *audience* id, not with the TH project id. */
  function QaAudienceAsWritten(cfg: Config, projectId: string): (audienceId: string)
    ensures projectId == cfg.thAudienceId ==> audienceId == cfg.thAudienceId
    ensures projectId != cfg.thAudienceId ==> audienceId == cfg.ckAudienceId
  {
    if projectId == cfg.thAudienceId then cfg.thAudienceId else cfg.ckAudienceId
  }

  /** The QA audience of a project: the one of the project its records are
      labelled with. */
  function QaAudienceFor(cfg: Config, projectId: string): (audienceId: string)
    ensures audienceId == if ProjectLabel(cfg, projectId) == "TH" then cfg.thAudienceId else cfg.ckAudienceId
  {
    if projectId == cfg.thProjectId then cfg.thAudienceId else cfg.ckAudienceId
  }

  /** As written, the TH project is checked against the CK QA audience
      whenever its project id is not also the TH audience id, while the
      intended selection picks the TH QA audience. */
  lemma AsWrittenPicksCkAudience(cfg: Config)
    requires cfg.thProjectId != cfg.thAudienceId
    ensures QaAudienceAsWritten(cfg, cfg.thProjectId) == cfg.ckAudienceId
    ensures QaAudienceFor(cfg, cfg.thProjectId) == cfg.thAudienceId
  {
  }

  /** The two selections agree on a project exactly when the two QA
      audiences coincide, or the project id is the TH project id exactly
      when it is the TH audience id. */
  lemma SelectionsAgree(cfg: Config, projectId: string)
    ensures QaAudienceAsWritten(cfg, projectId) == QaAudienceFor(cfg, projectId) <==>
      cfg.thAudienceId == cfg.ckAudienceId ||
      (projectId == cfg.thProjectId <==> projectId == cfg.thAudienceId)
  {
  }

  /** Which QA audience selection a run makes: the one the source makes, or
      the intended one. */
  datatype Selection = AsWritten | Intended

  function QaAudience(sel: Selection, cfg: Config, projectId: string): string
  {
    match sel
    case AsWritten => QaAudienceAsWritten(cfg, projectId)
    case Intended => QaAudienceFor(cfg, projectId)
  }

  /** The page check: the first page was fetched and its conditions mention
      the QA environment. */
  predicate FirstPageIsDevtest(pageIds: seq<Id>, pageOf: Id -> Option<PageDetail>)
  {
    |pageIds| > 0 &&
    pageOf(pageIds[0]).Some? &&
    pageOf(pageIds[0]).value.conditions.Some? &&
    Includes(pageOf(pageIds[0]).value.conditions.value, QaPageMarker)
  }

  /** `isRunningInQAMode` for a fetched experiment. The audience test
      `!A || (!B && A)` sends every case but `A && B` to the page check; an
      experiment without pages, or whose page cannot be fetched, counts as
      live. */
  function IsRunningInQaMode(audienceId: string, d: ExperimentDetail, pageOf: Id -> Option<PageDetail>): (qa: bool)
    ensures qa <==>
      (Includes(d.audienceConditions, audienceId) && Includes(d.audienceConditions, AndToken)) ||
      FirstPageIsDevtest(d.pageIds, pageOf)
  {
    var includesAudience := Includes(d.audienceConditions, audienceId);
    if !includesAudience || (!Includes(d.audienceConditions, AndToken) && includesAudience) then
      if |d.pageIds| > 0 then
        var foundPage := pageOf(d.pageIds[0]);
        foundPage.Some? && foundPage.value.conditions.Some? && Includes(foundPage.value.conditions.value, QaPageMarker)
      else
        false
    else
      true
  }

  /** What the check makes of one record. */
  datatype Verdict =
    | Dropped                                   // the experiment could not be fetched
    | Crashes                                   // no `variations`: `.length` of undefined throws
    | Classified(enriched: StatusChange, qa: bool)

  /** The two flags a fetched experiment adds to its record. */
  ghost function Enrich(rec: StatusChange, d: ExperimentDetail): (r: StatusChange)
    requires d.variations.Some?
    ensures r.expId == rec.expId && r.expName == rec.expName
    ensures r.expStatus == rec.expStatus && r.project == rec.project
    ensures r.isEqualTrafficAllocation == Some(CheckTrafficAllocation(TotalTraffic, d.variations.value))
    ensures r.hasCustomGoals == Some(HasCustomGoals(d))
  {
    rec.(isEqualTrafficAllocation := Some(CheckTrafficAllocation(TotalTraffic, d.variations.value)),
         hasCustomGoals := Some(HasCustomGoals(d)))
  }

  /** The verdict on one record: dropped exactly when its experiment cannot
      be fetched, a crash exactly when the fetched experiment has no
      variations, and otherwise classified with its two flags, QA-only
      exactly when the QA audience is AND-combined into its audience
      conditions or its first page is a devtest page. */
  ghost function Classify(audienceId: string, rec: StatusChange,
                          expOf: Id -> Option<ExperimentDetail>, pageOf: Id -> Option<PageDetail>): (v: Verdict)
    ensures v.Dropped? <==> expOf(rec.expId).None?
    ensures v.Crashes? <==> expOf(rec.expId).Some? && expOf(rec.expId).value.variations.None?
    ensures v.Classified? ==>
      var d := expOf(rec.expId).value;
      d.variations.Some? && v.enriched == Enrich(rec, d) &&
      (v.qa <==>
        (Includes(d.audienceConditions, audienceId) && Includes(d.audienceConditions, AndToken)) ||
        FirstPageIsDevtest(d.pageIds, pageOf))
  {
    match expOf(rec.expId)
    case None => Dropped
    case Some(d) =>
      if d.variations.None? then Crashes
      else Classified(Enrich(rec, d), IsRunningInQaMode(audienceId, d, pageOf))
  }

  /** The state of the loop: the records pushed so far, the dictionary, and
      whether an exception ended the loop. */
  datatype Progress = Progress(launched: seq<StatusChange>, entries: map<Id, StatusChange>, threw: bool)

  /** One turn of the loop, for `key`. */
  ghost function TargetStep(audienceId: string, p: Progress, key: Id,
                            expOf: Id -> Option<ExperimentDetail>, pageOf: Id -> Option<PageDetail>): Progress
    requires key in p.entries
  {
    if p.threw then p
    else
      match Classify(audienceId, p.entries[key], expOf, pageOf)
      case Dropped => p
      case Crashes => p.(threw := true)
      case Classified(r, qa) =>
        Progress(if qa then p.launched else p.launched + [r], p.entries[key := r], false)
  }

  /** Records that describe the same experiment and status change. */
  ghost predicate SameExperiment(r1: StatusChange, r2: StatusChange)
  {
    r1.expId == r2.expId && r1.expName == r2.expName && r1.expStatus == r2.expStatus && r1.project == r2.project
  }

  /** The loop over `keys`: it keeps the dictionary's keys. */
  ghost function TargetRun(audienceId: string, keys: seq<Id>, entries: map<Id, StatusChange>,
                           expOf: Id -> Option<ExperimentDetail>, pageOf: Id -> Option<PageDetail>): (p: Progress)
    requires forall k :: k in keys ==> k in entries
    ensures p.entries.Keys == entries.Keys
  {
    if keys == [] then Progress([], entries, false)
    else
      var p := TargetRun(audienceId, keys[..|keys| - 1], entries, expOf, pageOf);
      TargetStep(audienceId, p, keys[|keys| - 1], expOf, pageOf)
  }

  lemma TargetRunSnoc(audienceId: string, keys: seq<Id>, entries: map<Id, StatusChange>,
                      expOf: Id -> Option<ExperimentDetail>, pageOf: Id -> Option<PageDetail>, i: nat)
    requires i < |keys| && forall k :: k in keys ==> k in entries
    ensures TargetRun(audienceId, keys[..i + 1], entries, expOf, pageOf) ==
      TargetStep(audienceId, TargetRun(audienceId, keys[..i], entries, expOf, pageOf), keys[i], expOf, pageOf)
  {
    assert keys[..i + 1][..i] == keys[..i];
  }

  /** Once the loop has thrown, the remaining keys change nothing. */
  lemma {:induction false} ThrowEndsRun(audienceId: string, keys: seq<Id>, entries: map<Id, StatusChange>,
                                        expOf: Id -> Option<ExperimentDetail>, pageOf: Id -> Option<PageDetail>, n: nat)
    requires n <= |keys| && forall k :: k in keys ==> k in entries
    requires TargetRun(audienceId, keys[..n], entries, expOf, pageOf).threw
    ensures TargetRun(audienceId, keys, entries, expOf, pageOf) == TargetRun(audienceId, keys[..n], entries, expOf, pageOf)
  {
    if n < |keys| {
      var front := keys[..|keys| - 1];
      assert front[..n] == keys[..n];
      ThrowEndsRun(audienceId, front, entries, expOf, pageOf, n);
    } else {
      assert keys[..n] == keys;
    }
  }

  /** The loop keeps what each record says about its experiment, and leaves
      alone the records it has not reached. */
  lemma {:induction false} TargetRunKeepsRecords(audienceId: string, keys: seq<Id>, entries: map<Id, StatusChange>,
                                                 expOf: Id -> Option<ExperimentDetail>, pageOf: Id -> Option<PageDetail>)
    requires forall k :: k in keys ==> k in entries
    ensures forall k :: k in entries ==>
      SameExperiment(TargetRun(audienceId, keys, entries, expOf, pageOf).entries[k], entries[k])
    ensures forall k :: k in entries && k !in keys ==>
      TargetRun(audienceId, keys, entries, expOf, pageOf).entries[k] == entries[k]
  {
    if keys != [] {
      var front := keys[..|keys| - 1];
      TargetRunKeepsRecords(audienceId, front, entries, expOf, pageOf);
    }
  }

  /** The loop keeps the dictionary well formed. */
  lemma TargetRunKeepsTable(audienceId: string, keys: seq<Id>, visited: seq<Id>, entries: map<Id, StatusChange>,
                            expOf: Id -> Option<ExperimentDetail>, pageOf: Id -> Option<PageDetail>)
    requires WellFormed(Table(keys, entries)) && forall k :: k in visited ==> k in entries
    ensures WellFormed(Table(keys, TargetRun(audienceId, visited, entries, expOf, pageOf).entries))
  {
    TargetRunKeepsRecords(audienceId, visited, entries, expOf, pageOf);
  }

  /** A TH experiment restricted to the TH QA audience by an AND condition,
      with no pages: with the audience picked as written it is reported as
      live, with the intended audience it is recognised as QA-only. */
  lemma AsWrittenReportsQaExperiment()
    ensures
      var cfg := Config("10", "20", "1", "22222");
      var d := ExperimentDetail("and1", [], Some([]), None);
      var rec := StatusChange(5, "Hero test", "running", "TH", None, None);
      var expOf := (id: Id) => Some(d);
      var pageOf := (id: Id) => None;
      Classify(QaAudienceAsWritten(cfg, cfg.thProjectId), rec, expOf, pageOf).Classified? &&
      !Classify(QaAudienceAsWritten(cfg, cfg.thProjectId), rec, expOf, pageOf).qa &&
      Classify(QaAudienceFor(cfg, cfg.thProjectId), rec, expOf, pageOf).Classified? &&
      Classify(QaAudienceFor(cfg, cfg.thProjectId), rec, expOf, pageOf).qa
  {
    assert OccursAt("and1", "1", 3);
    assert OccursAt("and1", AndToken, 0);
    assert !Includes("and1", "22222");
  }

  /** The verdict on a record depends only on the experiment it describes,
      not on flags written into it earlier. */
  lemma ClassifyIgnoresFlags(audienceId: string, r1: StatusChange, r2: StatusChange,
                             expOf: Id -> Option<ExperimentDetail>, pageOf: Id -> Option<PageDetail>)
    requires SameExperiment(r1, r2)
    ensures Classify(audienceId, r1, expOf, pageOf) == Classify(audienceId, r2, expOf, pageOf)
  {
  }

  /** The record of `keys[i]` met by the loop is the original one up to its
      flags, so it gets the original record's verdict. */
  lemma StepVerdict(audienceId: string, keys: seq<Id>, entries: map<Id, StatusChange>,
                    expOf: Id -> Option<ExperimentDetail>, pageOf: Id -> Option<PageDetail>)
    requires keys != [] && forall k :: k in keys ==> k in entries
    ensures
      var last := keys[|keys| - 1];
      Classify(audienceId, TargetRun(audienceId, keys[..|keys| - 1], entries, expOf, pageOf).entries[last], expOf, pageOf) ==
      Classify(audienceId, entries[last], expOf, pageOf)
  {
    var front, last := keys[..|keys| - 1], keys[|keys| - 1];
    TargetRunKeepsRecords(audienceId, front, entries, expOf, pageOf);
    ClassifyIgnoresFlags(audienceId, TargetRun(audienceId, front, entries, expOf, pageOf).entries[last], entries[last], expOf, pageOf);
  }

  /** The fetched experiment of `id` has no `variations`. */
  predicate LacksVariations(expOf: Id -> Option<ExperimentDetail>, id: Id)
  {
    expOf(id).Some? && expOf(id).value.variations.None?
  }

  /** The loop throws exactly when one of the experiments it visits is
      fetched without variations. */
  lemma {:induction false} ThrowsIffVariationsMissing(audienceId: string, keys: seq<Id>, entries: map<Id, StatusChange>,
                                                      expOf: Id -> Option<ExperimentDetail>, pageOf: Id -> Option<PageDetail>)
    requires forall k :: k in keys ==> k in entries
    ensures TargetRun(audienceId, keys, entries, expOf, pageOf).threw <==>
      exists k :: k in keys && LacksVariations(expOf, entries[k].expId)
  {
    if keys != [] {
      var front, last := keys[..|keys| - 1], keys[|keys| - 1];
      assert keys == front + [last];
      ThrowsIffVariationsMissing(audienceId, front, entries, expOf, pageOf);
      StepVerdict(audienceId, keys, entries, expOf, pageOf);
    }
  }

  /** The records a run without exceptions reports: the enriched records of
      the live experiments, in key order. */
  ghost function Live(audienceId: string, keys: seq<Id>, entries: map<Id, StatusChange>,
                      expOf: Id -> Option<ExperimentDetail>, pageOf: Id -> Option<PageDetail>): seq<StatusChange>
    requires forall k :: k in keys ==> k in entries
  {
    if keys == [] then []
    else
      Live(audienceId, keys[..|keys| - 1], entries, expOf, pageOf) +
        match Classify(audienceId, entries[keys[|keys| - 1]], expOf, pageOf)
        case Classified(r, false) => [r]
        case _ => []
  }

  /** A record is reported exactly when some visited experiment is live with
      that record as its enriched record. */
  lemma {:induction false} LiveMembers(audienceId: string, keys: seq<Id>, entries: map<Id, StatusChange>,
                                       expOf: Id -> Option<ExperimentDetail>, pageOf: Id -> Option<PageDetail>, r: StatusChange)
    requires forall k :: k in keys ==> k in entries
    ensures r in Live(audienceId, keys, entries, expOf, pageOf) <==>
      exists k :: k in keys && Classify(audienceId, entries[k], expOf, pageOf) == Classified(r, false)
  {
    if keys != [] {
      var front, last := keys[..|keys| - 1], keys[|keys| - 1];
      assert keys == front + [last];
      LiveMembers(audienceId, front, entries, expOf, pageOf, r);
    }
  }

  /** Without an exception, the loop reports exactly the live records, in key
      order. */
  lemma {:induction false} RunReportsLive(audienceId: string, keys: seq<Id>, entries: map<Id, StatusChange>,
                                          expOf: Id -> Option<ExperimentDetail>, pageOf: Id -> Option<PageDetail>)
    requires forall k :: k in keys ==> k in entries
    requires !TargetRun(audienceId, keys, entries, expOf, pageOf).threw
    ensures TargetRun(audienceId, keys, entries, expOf, pageOf).launched == Live(audienceId, keys, entries, expOf, pageOf)
  {
    if keys != [] {
      var front := keys[..|keys| - 1];
      assert !TargetRun(audienceId, front, entries, expOf, pageOf).threw;
      RunReportsLive(audienceId, front, entries, expOf, pageOf);
      StepVerdict(audienceId, keys, entries, expOf, pageOf);
    }
  }

  /** Without an exception, every record the loop visits whose experiment
      was fetched carries that experiment's two flags; the other records are
      left as they were. */
  lemma {:induction false} RunEnrichesVisited(audienceId: string, keys: seq<Id>, entries: map<Id, StatusChange>,
                                              expOf: Id -> Option<ExperimentDetail>, pageOf: Id -> Option<PageDetail>)
    requires forall k :: k in keys ==> k in entries
    requires !TargetRun(audienceId, keys, entries, expOf, pageOf).threw
    ensures forall k :: k in entries ==>
      TargetRun(audienceId, keys, entries, expOf, pageOf).entries[k] ==
        match Classify(audienceId, entries[k], expOf, pageOf)
        case Classified(r, _) => if k in keys then r else entries[k]
        case _ => entries[k]
  {
    if keys != [] {
      var front := keys[..|keys| - 1];
      assert keys == front + [keys[|keys| - 1]];
      assert !TargetRun(audienceId, front, entries, expOf, pageOf).threw;
      RunEnrichesVisited(audienceId, front, entries, expOf, pageOf);
      StepVerdict(audienceId, keys, entries, expOf, pageOf);
    }
  }

  /** The two writes into `updatedExperiments[key]`: the traffic allocation
      flag, then the custom goals flag. */
  method EnrichInPlace(table: ExperimentTable, key: Id, d: ExperimentDetail)
    requires key in table.entries && d.variations.Some?
    modifies table`entries
    ensures table.entries == old(table.entries)[key := Enrich(old(table.entries)[key], d)]
  {
    ghost var before := table.entries[key];
    var isEqualTrafficAllocation := CheckTrafficAllocation(TotalTraffic, d.variations.value);
    table.entries := table.entries[key := table.entries[key].(isEqualTrafficAllocation := Some(isEqualTrafficAllocation))];
    var foundCustomGoals := CheckCustomGoals(d);
    table.entries := table.entries[key := table.entries[key].(hasCustomGoals := Some(foundCustomGoals))];
    assert table.entries[key] == Enrich(before, d);
  }

  /** One turn of the loop of `checkTargeting`, for `key`: fetch the
      experiment, skip it when the request fails, throw when it has no
      variations, and otherwise enrich its record in place and push the record
      when it is live. */
  method CheckOne(audienceId: string, table: ExperimentTable, key: Id, launchedBefore: seq<StatusChange>,
                  expOf: Id -> Option<ExperimentDetail>, pageOf: Id -> Option<PageDetail>)
    returns (launched: seq<StatusChange>, threw: bool)
    requires key in table.entries
    modifies table`entries
    ensures Progress(launched, table.entries, threw) ==
      TargetStep(audienceId, Progress(launchedBefore, old(table.entries), false), key, expOf, pageOf)
  {
    launched, threw := launchedBefore, false;
    var foundExperiment := expOf(table.entries[key].expId);
    if foundExperiment.None? {
      return;
    }
    var d := foundExperiment.value;
    if d.variations.None? {
      threw := true;
      return;
    }
    EnrichInPlace(table, key, d);

    var isRunningInQAMode := false;
    var includesAudience := Includes(d.audienceConditions, audienceId);
    if !includesAudience || (!Includes(d.audienceConditions, AndToken) && includesAudience) {
      if |d.pageIds| > 0 {
        var foundPage := pageOf(d.pageIds[0]);
        if foundPage.Some? && foundPage.value.conditions.Some? && Includes(foundPage.value.conditions.value, QaPageMarker) {
          isRunningInQAMode := true;
        } else {
          isRunningInQAMode := false;
        }
      }
    } else {
      isRunningInQAMode := true;
    }
    assert isRunningInQAMode == IsRunningInQaMode(audienceId, d, pageOf);

    if !isRunningInQAMode {
      launched := launched + [table.entries[key]];
    }
  }

  /** `checkTargeting(project_id, updatedExperiments)`, given the QA
      audience id picked for the project. It writes both flags into each
      fetched experiment's record in place and pushes the live ones; on an
      experiment without variations it throws, leaving what it wrote so far. */
  method CheckTargeting(audienceId: string, table: ExperimentTable,
                        expOf: Id -> Option<ExperimentDetail>, pageOf: Id -> Option<PageDetail>)
    returns (launched: seq<StatusChange>, threw: bool)
    requires table.Valid()
    modifies table`entries
    ensures table.Valid()
    ensures Progress(launched, table.entries, threw) ==
      TargetRun(audienceId, table.keys, old(table.entries), expOf, pageOf)
  {
    launched := [];
    threw := false;
    var experimentKeys := table.keys;
    ghost var original := table.entries;
    var i := 0;
    while i < |experimentKeys| && !threw
      invariant i <= |experimentKeys| && table.keys == experimentKeys
      invariant Progress(launched, table.entries, threw) ==
        TargetRun(audienceId, experimentKeys[..i], original, expOf, pageOf)
    {
      TargetRunSnoc(audienceId, experimentKeys, original, expOf, pageOf, i);
      launched, threw := CheckOne(audienceId, table, experimentKeys[i], launched, expOf, pageOf);
      i := i + 1;
    }
    if threw {
      ThrowEndsRun(audienceId, experimentKeys, original, expOf, pageOf, i);
    } else {
      assert experimentKeys[..i] == experimentKeys;
    }
    TargetRunKeepsTable(audienceId, experimentKeys, experimentKeys, original, expOf, pageOf);
  }
}
