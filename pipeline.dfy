/** `checkWebProjects`: for each configured project, read its change
    history, collect the experiments whose status changed, keep those that
    reach real users, and gather them all for one notification. The history
    read is an oracle: `historyOf` answers `GET /changes` for a project,
    `None` standing for a failed request. */
module Pipeline {
  import opened Wrappers
  import opened Optimizely
  import opened Aggregation
  import opened Targeting
  import opened TrafficAllocation
  import opened CustomGoals
  import opened Text

  /** What one project adds to the result: nothing when its history cannot
      be read or is empty, otherwise the live experiments among its status
      changes, checked against the project's QA audience; an exception in
      the targeting check ends the whole run. */
  ghost function ProjectContribution(sel: Selection, cfg: Config, projectId: string,
                                     historyOf: string -> Option<seq<ChangeEvent>>,
                                     expOf: Id -> Option<ExperimentDetail>,
                                     pageOf: Id -> Option<PageDetail>): Outcome<seq<StatusChange>>
  {
    match historyOf(projectId)
    case None => Returned([])
    case Some(history) =>
      if |history| == 0 then Returned([])
      else
        var t := FirstWins(ProjectLabel(cfg, projectId), Sightings(history));
        var p := TargetRun(QaAudience(sel, cfg, projectId), t.keys, t.entries, expOf, pageOf);
        if p.threw then Threw else Returned(p.launched)
  }

  /** Two results in sequence: an exception in either wins, otherwise the
      reports are concatenated. */
  function Then(o1: Outcome<seq<StatusChange>>, o2: Outcome<seq<StatusChange>>): (o: Outcome<seq<StatusChange>>)
    ensures o.Threw? <==> o1.Threw? || o2.Threw?
    ensures o.Returned? ==> o.value == o1.value + o2.value
  {
    match o1
    case Threw => Threw
    case Returned(r1) =>
      match o2
      case Threw => Threw
      case Returned(r2) => Returned(r1 + r2)
  }

  /** Each project's contribution, as a function of the project id. */
  ghost function Contributions(sel: Selection, cfg: Config, historyOf: string -> Option<seq<ChangeEvent>>,
                               expOf: Id -> Option<ExperimentDetail>,
                               pageOf: Id -> Option<PageDetail>): string -> Outcome<seq<StatusChange>>
  {
    pid => ProjectContribution(sel, cfg, pid, historyOf, expOf, pageOf)
  }

  /** The run over `projectIds`, project by project, given what each project
      contributes. */
  ghost function RunProjects(projectIds: seq<string>, contribution: string -> Outcome<seq<StatusChange>>): Outcome<seq<StatusChange>>
  {
    if projectIds == [] then Returned([])
    else Then(RunProjects(projectIds[..|projectIds| - 1], contribution), contribution(projectIds[|projectIds| - 1]))
  }

  lemma RunProjectsSnoc(projectIds: seq<string>, contribution: string -> Outcome<seq<StatusChange>>, i: nat)
    requires i < |projectIds|
    ensures RunProjects(projectIds[..i + 1], contribution) ==
      Then(RunProjects(projectIds[..i], contribution), contribution(projectIds[i]))
  {
    assert projectIds[..i + 1][..i] == projectIds[..i];
  }

  /** One turn of the loop of `checkWebProjects`, for `projectId`. */
  method CheckProject(sel: Selection, cfg: Config, projectId: string,
                      historyOf: string -> Option<seq<ChangeEvent>>,
                      expOf: Id -> Option<ExperimentDetail>,
                      pageOf: Id -> Option<PageDetail>)
    returns (contribution: Outcome<seq<StatusChange>>)
    ensures contribution == ProjectContribution(sel, cfg, projectId, historyOf, expOf, pageOf)
  {
    var changeHistory := historyOf(projectId);
    if changeHistory.None? || |changeHistory.value| == 0 {
      return Returned([]);
    }
    var updatedExperiments := CheckForUpdatedExperimentStatus(cfg, projectId, changeHistory.value);
    ghost var t := updatedExperiments.View();
    var launchedExperiments, threw := CheckTargeting(QaAudience(sel, cfg, projectId), updatedExperiments, expOf, pageOf);
    assert Progress(launchedExperiments, updatedExperiments.entries, threw) ==
      TargetRun(QaAudience(sel, cfg, projectId), t.keys, t.entries, expOf, pageOf);
    if threw {
      return Threw;
    }
    return Returned(launchedExperiments);
  }

  /** `checkWebProjects` up to the notification: the records of the live
      experiments of every project, in project order, or an exception. */
  method CheckWebProjects(sel: Selection, cfg: Config, projectIds: seq<string>,
                          historyOf: string -> Option<seq<ChangeEvent>>,
                          expOf: Id -> Option<ExperimentDetail>,
                          pageOf: Id -> Option<PageDetail>)
    returns (run: Outcome<seq<StatusChange>>)
    ensures run == RunProjects(projectIds, Contributions(sel, cfg, historyOf, expOf, pageOf))
  {
    ghost var contributionOf := Contributions(sel, cfg, historyOf, expOf, pageOf);
    var result: seq<StatusChange> := [];
    for i := 0 to |projectIds|
      invariant RunProjects(projectIds[..i], contributionOf) == Returned(result)
    {
      RunProjectsSnoc(projectIds, contributionOf, i);
      var contribution := CheckProject(sel, cfg, projectIds[i], historyOf, expOf, pageOf);
      assert contribution == contributionOf(projectIds[i]);
      if contribution.Threw? {
        RunStopsAtThrow(projectIds, contributionOf, i + 1);
        return Threw;
      }
      var launchedExperiments := contribution.value;
      if |launchedExperiments| > 0 {
        result := result + launchedExperiments;
      } else {
        assert result + launchedExperiments == result;
      }
    }
    assert projectIds[..|projectIds|] == projectIds;
    return Returned(result);
  }

  /** Once a project has thrown, the run has thrown. */
  lemma {:induction false} RunStopsAtThrow(projectIds: seq<string>, contribution: string -> Outcome<seq<StatusChange>>, n: nat)
    requires n <= |projectIds|
    requires RunProjects(projectIds[..n], contribution).Threw?
    ensures RunProjects(projectIds, contribution).Threw?
  {
    if n < |projectIds| {
      var front := projectIds[..|projectIds| - 1];
      assert front[..n] == projectIds[..n];
      RunStopsAtThrow(front, contribution, n);
    } else {
      assert projectIds[..n] == projectIds;
    }
  }

  lemma ThenAssociates(o1: Outcome<seq<StatusChange>>, o2: Outcome<seq<StatusChange>>, o3: Outcome<seq<StatusChange>>)
    ensures Then(Then(o1, o2), o3) == Then(o1, Then(o2, o3))
  {
    if o1.Returned? && o2.Returned? && o3.Returned? {
      assert (o1.value + o2.value) + o3.value == o1.value + (o2.value + o3.value);
    }
  }

  /** Running two lists of projects one after the other is running their
      concatenation. */
  lemma {:induction false} RunConcatenates(ps1: seq<string>, ps2: seq<string>, contribution: string -> Outcome<seq<StatusChange>>)
    ensures RunProjects(ps1 + ps2, contribution) == Then(RunProjects(ps1, contribution), RunProjects(ps2, contribution))
  {
    if ps2 == [] {
      assert ps1 + ps2 == ps1;
      var o := RunProjects(ps1, contribution);
      if o.Returned? {
        assert o.value + [] == o.value;
      }
    } else {
      var front, last := ps2[..|ps2| - 1], ps2[|ps2| - 1];
      var ps := ps1 + ps2;
      assert ps[..|ps| - 1] == ps1 + front;
      assert ps[|ps| - 1] == last;
      RunConcatenates(ps1, front, contribution);
      ThenAssociates(RunProjects(ps1, contribution), RunProjects(front, contribution), contribution(last));
    }
  }

  /** The run throws exactly when one of its projects throws, and otherwise
      reports a record exactly when one of its projects reports it. */
  lemma {:induction false} RunCollectsProjects(projectIds: seq<string>, contribution: string -> Outcome<seq<StatusChange>>,
                                               r: StatusChange)
    ensures RunProjects(projectIds, contribution).Threw? <==>
      exists pid :: pid in projectIds && contribution(pid).Threw?
    ensures RunProjects(projectIds, contribution).Returned? ==>
      (r in RunProjects(projectIds, contribution).value <==>
         exists pid :: pid in projectIds && r in contribution(pid).value)
  {
    if projectIds != [] {
      var front, last := projectIds[..|projectIds| - 1], projectIds[|projectIds| - 1];
      assert projectIds == front + [last];
      RunCollectsProjects(front, contribution, r);
    }
  }

  /** A project whose history cannot be read, or holds no change, adds
      nothing to the run. */
  lemma SkippedProjectAddsNothing(sel: Selection, cfg: Config, projectIds: seq<string>, projectId: string,
                                  historyOf: string -> Option<seq<ChangeEvent>>,
                                  expOf: Id -> Option<ExperimentDetail>, pageOf: Id -> Option<PageDetail>)
    requires historyOf(projectId).None? || historyOf(projectId) == Some([])
    ensures RunProjects(projectIds + [projectId], Contributions(sel, cfg, historyOf, expOf, pageOf)) ==
      RunProjects(projectIds, Contributions(sel, cfg, historyOf, expOf, pageOf))
  {
    var contributionOf := Contributions(sel, cfg, historyOf, expOf, pageOf);
    var ps := projectIds + [projectId];
    assert ps[..|ps| - 1] == projectIds;
    assert contributionOf(projectId) == Returned([]);
    var o := RunProjects(projectIds, contributionOf);
    if o.Returned? {
      assert o.value + [] == o.value;
    }
  }

  /** The targeting run over the table built from `ss` throws exactly when
      one of the experiments in `ss` is fetched without variations. */
  lemma TableRunThrowsIff(audienceId: string, project: string, ss: seq<Sighting>,
                          expOf: Id -> Option<ExperimentDetail>, pageOf: Id -> Option<PageDetail>)
    ensures
      var t := FirstWins(project, ss);
      TargetRun(audienceId, t.keys, t.entries, expOf, pageOf).threw <==>
        exists s :: s in ss && LacksVariations(expOf, s.entity.id)
  {
    var t := FirstWins(project, ss);
    ThrowsIffVariationsMissing(audienceId, t.keys, t.entries, expOf, pageOf);
    if exists k :: k in t.keys && LacksVariations(expOf, t.entries[k].expId) {
      var k :| k in t.keys && LacksVariations(expOf, t.entries[k].expId);
      ListedIffSighted(project, ss, k);
    }
    if exists s :: s in ss && LacksVariations(expOf, s.entity.id) {
      var s :| s in ss && LacksVariations(expOf, s.entity.id);
      ListedIffSighted(project, ss, s.entity.id);
    }
  }

  /** A project throws exactly when one of the experiments whose status
      changed in its history is fetched without variations. */
  lemma ProjectThrowsIff(sel: Selection, cfg: Config, projectId: string, historyOf: string -> Option<seq<ChangeEvent>>,
                         expOf: Id -> Option<ExperimentDetail>, pageOf: Id -> Option<PageDetail>)
    ensures ProjectContribution(sel, cfg, projectId, historyOf, expOf, pageOf).Threw? <==>
      historyOf(projectId).Some? &&
      exists s :: s in Sightings(historyOf(projectId).value) && LacksVariations(expOf, s.entity.id)
  {
    if historyOf(projectId).Some? {
      var history := historyOf(projectId).value;
      if |history| == 0 {
        assert Sightings(history) == [];
      } else {
        TableRunThrowsIff(QaAudience(sel, cfg, projectId), ProjectLabel(cfg, projectId), Sightings(history), expOf, pageOf);
      }
    }
  }

  /** A project that does not throw reports the live experiments among its
      status changes, in the order they were first seen. */
  lemma ProjectReportsLive(sel: Selection, cfg: Config, projectId: string, historyOf: string -> Option<seq<ChangeEvent>>,
                           expOf: Id -> Option<ExperimentDetail>, pageOf: Id -> Option<PageDetail>)
    requires historyOf(projectId).Some?
    ensures
      var t := FirstWins(ProjectLabel(cfg, projectId), Sightings(historyOf(projectId).value));
      ProjectContribution(sel, cfg, projectId, historyOf, expOf, pageOf).Returned? ==>
        ProjectContribution(sel, cfg, projectId, historyOf, expOf, pageOf).value ==
          Live(QaAudience(sel, cfg, projectId), t.keys, t.entries, expOf, pageOf)
  {
    var t := FirstWins(ProjectLabel(cfg, projectId), Sightings(historyOf(projectId).value));
    if |historyOf(projectId).value| > 0 && !TargetRun(QaAudience(sel, cfg, projectId), t.keys, t.entries, expOf, pageOf).threw {
      RunReportsLive(QaAudience(sel, cfg, projectId), t.keys, t.entries, expOf, pageOf);
    }
  }

  /** The audit record of the example below: experiment 7 started. */
  function StartEvent(): ChangeEvent
  {
    ChangeEvent(Entity(7, "Banner"), Some([Change(Some(StatusProperty), "running")]))
  }

  /** The fetched experiment of the example below: one variation with all
      the traffic, no code, no audience conditions and no pages. */
  function PlainExperiment(): ExperimentDetail
  {
    ExperimentDetail("", [], Some([Variation(10000, None)]), None)
  }

  lemma StartEventTable()
    ensures FirstWins("TH", Sightings([StartEvent()])) ==
      Table([7], map[7 := StatusChange(7, "Banner", "running", "TH", None, None)])
  {
    var e := StartEvent();
    var s := Sighting(Entity(7, "Banner"), "running");
    var cs := e.changes.value;
    assert ChangeSightings(e.entity, cs) == ChangeSightings(e.entity, []) + [s] by {
      assert cs[..0] == [];
    }
    assert Sightings([e]) == [s] by {
      assert [e][..0] == [];
    }
    assert [s][..0] == [];
  }

  lemma PlainExperimentIsLive(audienceId: string, expOf: Id -> Option<ExperimentDetail>, pageOf: Id -> Option<PageDetail>)
    requires expOf(7) == Some(PlainExperiment())
    ensures
      var rec := StatusChange(7, "Banner", "running", "TH", None, None);
      var enriched := StatusChange(7, "Banner", "running", "TH", Some(true), Some(false));
      TargetRun(audienceId, [7], map[7 := rec], expOf, pageOf) == Progress([enriched], map[7 := enriched], false)
  {
    var d := PlainExperiment();
    var rec := StatusChange(7, "Banner", "running", "TH", None, None);
    var enriched := StatusChange(7, "Banner", "running", "TH", Some(true), Some(false));
    assert CheckTrafficAllocation(TotalTraffic, [Variation(10000, None)]);
    assert !HasCustomGoals(d);
    assert Enrich(rec, d) == enriched;
    assert !Includes("", AndToken);
    assert !IsRunningInQaMode(audienceId, d, pageOf);
    assert Classify(audienceId, rec, expOf, pageOf) == Classified(enriched, false);
    assert [7][..0] == [];
  }

  /** The TH project of the example reports the plain experiment under
      either audience selection. */
  lemma StartProjectContribution(sel: Selection, historyOf: string -> Option<seq<ChangeEvent>>,
                                 expOf: Id -> Option<ExperimentDetail>, pageOf: Id -> Option<PageDetail>)
    requires historyOf("10") == Some([StartEvent()])
    requires expOf(7) == Some(PlainExperiment())
    ensures ProjectContribution(sel, Config("10", "20", "1", "2"), "10", historyOf, expOf, pageOf) ==
      Returned([StatusChange(7, "Banner", "running", "TH", Some(true), Some(false))])
  {
    StartEventTable();
    PlainExperimentIsLive(QaAudience(sel, Config("10", "20", "1", "2"), "10"), expOf, pageOf);
  }

  /** Two projects: the TH project's history starts one experiment with
      even traffic, no custom goals and no QA restriction, and the CK
      project's history cannot be read. The run reports that one
      experiment, flags included, under either audience selection. */
  lemma TwoProjectRun(sel: Selection, historyOf: string -> Option<seq<ChangeEvent>>,
                      expOf: Id -> Option<ExperimentDetail>, pageOf: Id -> Option<PageDetail>)
    requires historyOf("10") == Some([StartEvent()]) && historyOf("20") == None
    requires expOf(7) == Some(PlainExperiment())
    ensures RunProjects(["10", "20"], Contributions(sel, Config("10", "20", "1", "2"), historyOf, expOf, pageOf)) ==
      Returned([StatusChange(7, "Banner", "running", "TH", Some(true), Some(false))])
  {
    var contributionOf := Contributions(sel, Config("10", "20", "1", "2"), historyOf, expOf, pageOf);
    StartProjectContribution(sel, historyOf, expOf, pageOf);
    assert contributionOf("20") == Returned([]);
    RunOfTwo("10", "20", contributionOf);
  }

  /** A run over two projects where the second one adds nothing reports
      what the first one does. */
  lemma RunOfTwo(first: string, second: string, contribution: string -> Outcome<seq<StatusChange>>)
    requires contribution(first).Returned? && contribution(second) == Returned([])
    ensures RunProjects([first, second], contribution) == contribution(first)
  {
    var ps := [first, second];
    var r := contribution(first).value;
    RunProjectsSnoc(ps, contribution, 0);
    RunProjectsSnoc(ps, contribution, 1);
    assert ps[..2] == ps && ps[..0] == [];
    assert RunProjects(ps[..1], contribution) == Returned(r) by {
      assert [] + r == r;
    }
    assert r + [] == r;
  }

  /** The fetched experiment of the second example: restricted by an AND
      condition to audience "1", with no variations' code and no pages. */
  function AndRestrictedExperiment(): ExperimentDetail
  {
    ExperimentDetail("and1", [], Some([]), None)
  }

  /** Experiment 7 as `AndRestrictedExperiment` is QA-only for audience
      "1", and live for audience "22222". */
  lemma AndRestrictedVerdicts(expOf: Id -> Option<ExperimentDetail>, pageOf: Id -> Option<PageDetail>)
    requires expOf(7) == Some(AndRestrictedExperiment())
    ensures
      var rec := StatusChange(7, "Banner", "running", "TH", None, None);
      var enriched := StatusChange(7, "Banner", "running", "TH", Some(true), Some(false));
      TargetRun("22222", [7], map[7 := rec], expOf, pageOf) == Progress([enriched], map[7 := enriched], false) &&
      TargetRun("1", [7], map[7 := rec], expOf, pageOf) == Progress([], map[7 := enriched], false)
  {
    var d := AndRestrictedExperiment();
    var rec := StatusChange(7, "Banner", "running", "TH", None, None);
    var enriched := StatusChange(7, "Banner", "running", "TH", Some(true), Some(false));
    NoCodeNoGoals(d);
    assert Enrich(rec, d) == enriched;
    assert OccursAt("and1", "1", 3);
    assert OccursAt("and1", AndToken, 0);
    assert !Includes("and1", "22222");
    assert Classify("22222", rec, expOf, pageOf) == Classified(enriched, false);
    assert Classify("1", rec, expOf, pageOf) == Classified(enriched, true);
    assert [7][..0] == [];
  }

  /** With TH project "10", TH audience "1" and CK audience "22222", a TH
      experiment AND-restricted to audience "1" is reported by the run as
      written, and dropped as QA-only with the intended selection. */
  lemma AsWrittenRunReportsQaExperiment(historyOf: string -> Option<seq<ChangeEvent>>,
                                        expOf: Id -> Option<ExperimentDetail>, pageOf: Id -> Option<PageDetail>)
    requires historyOf("10") == Some([StartEvent()])
    requires expOf(7) == Some(AndRestrictedExperiment())
    ensures ProjectContribution(AsWritten, Config("10", "20", "1", "22222"), "10", historyOf, expOf, pageOf) ==
      Returned([StatusChange(7, "Banner", "running", "TH", Some(true), Some(false))])
    ensures ProjectContribution(Intended, Config("10", "20", "1", "22222"), "10", historyOf, expOf, pageOf) ==
      Returned([])
  {
    StartEventTable();
    AndRestrictedVerdicts(expOf, pageOf);
  }
}
