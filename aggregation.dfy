/** Folding one window of the change-history feed into one record per
    experiment whose status changed. */
module Aggregation {
  import opened Wrappers
  import opened Optimizely

  const StatusProperty := "status"

  /** The dictionary as a value: `keys` in the order `Object.keys` lists
      them, which for these ids is the order they were added in, and the
      record under each key. */
  datatype Table = Table(keys: seq<Id>, entries: map<Id, StatusChange>)

  /** No key listed twice, exactly the keys of the map listed, and every
      record filed under its own experiment id. */
  ghost predicate WellFormed(t: Table)
  {
    (forall i, j :: 0 <= i < j < |t.keys| ==> t.keys[i] != t.keys[j]) &&
    (forall id :: id in t.entries <==> id in t.keys) &&
    (forall id :: id in t.entries ==> t.entries[id].expId == id)
  }

  /** The `experimentIDs` object, filled by the aggregation and later
      updated in place by the targeting check. */
  class ExperimentTable {
    var keys: seq<Id>
    var entries: map<Id, StatusChange>

    ghost function View(): Table
      reads this
    {
      Table(keys, entries)
    }

    ghost predicate Valid()
      reads this
    {
      WellFormed(View())
    }

    constructor ()
      ensures Valid() && View() == Table([], map[])
    {
      keys := [];
      entries := map[];
    }
  }

  /** A status change found in the feed: the entity and its new status. */
  datatype Sighting = Sighting(entity: Entity, status: string)

  /** The status changes among `changes`, in order. */
  function ChangeSightings(entity: Entity, changes: seq<Change>): seq<Sighting>
  {
    if changes == [] then []
    else
      var last := changes[|changes| - 1];
      ChangeSightings(entity, changes[..|changes| - 1]) +
        (if last.property == Some(StatusProperty) then [Sighting(entity, last.after)] else [])
  }

  /** The status changes of one audit record; a record without `changes`
      has none. */
  function EventSightings(e: ChangeEvent): seq<Sighting>
  {
    match e.changes
    case None => []
    case Some(cs) => ChangeSightings(e.entity, cs)
  }

  /** Every status change of the feed, in feed order. */
  function Sightings(history: seq<ChangeEvent>): seq<Sighting>
  {
    if history == [] then []
    else Sightings(history[..|history| - 1]) + EventSightings(history[|history| - 1])
  }

  /** The record made from a status change. */
  function NewRecord(project: string, s: Sighting): StatusChange
  {
    StatusChange(s.entity.id, s.entity.name, s.status, project, None, None)
  }

  /** The first status change of each experiment wins: a later one for an
      id already present changes nothing. */
  ghost function FirstWins(project: string, ss: seq<Sighting>): (t: Table)
    ensures WellFormed(t)
  {
    if ss == [] then Table([], map[])
    else
      var t := FirstWins(project, ss[..|ss| - 1]);
      var s := ss[|ss| - 1];
      if s.entity.id in t.entries then t
      else Table(t.keys + [s.entity.id], t.entries[s.entity.id := NewRecord(project, s)])
  }

  lemma SightingsSnoc(history: seq<ChangeEvent>, i: nat)
    requires i < |history|
    ensures Sightings(history[..i + 1]) == Sightings(history[..i]) + EventSightings(history[i])
  {
    assert history[..i + 1][..i] == history[..i];
  }

  lemma ChangeSightingsSnoc(entity: Entity, changes: seq<Change>, j: nat)
    requires j < |changes|
    ensures ChangeSightings(entity, changes[..j + 1]) ==
      ChangeSightings(entity, changes[..j]) +
      (if changes[j].property == Some(StatusProperty) then [Sighting(entity, changes[j].after)] else [])
  {
    assert changes[..j + 1][..j] == changes[..j];
  }

  lemma FirstWinsSnoc(project: string, ss: seq<Sighting>, s: Sighting)
    ensures FirstWins(project, ss + [s]) ==
      var t := FirstWins(project, ss);
      if s.entity.id in t.entries then t
      else Table(t.keys + [s.entity.id], t.entries[s.entity.id := NewRecord(project, s)])
  {
    assert (ss + [s])[..|ss|] == ss;
  }

  /** One step of the inner loop: the effect of `changes[j]` on the table
      built from `done` and the changes before it. */
  lemma ChangeStep(project: string, done: seq<Sighting>, entity: Entity, changes: seq<Change>, j: nat)
    requires j < |changes|
    ensures
      var t := FirstWins(project, done + ChangeSightings(entity, changes[..j]));
      FirstWins(project, done + ChangeSightings(entity, changes[..j + 1])) ==
        if changes[j].property == Some(StatusProperty) && entity.id !in t.entries
        then Table(t.keys + [entity.id], t.entries[entity.id := NewRecord(project, Sighting(entity, changes[j].after))])
        else t
  {
    var before := done + ChangeSightings(entity, changes[..j]);
    ChangeSightingsSnoc(entity, changes, j);
    if changes[j].property == Some(StatusProperty) {
      var s := Sighting(entity, changes[j].after);
      assert done + ChangeSightings(entity, changes[..j + 1]) == before + [s];
      FirstWinsSnoc(project, before, s);
    } else {
      assert done + ChangeSightings(entity, changes[..j + 1]) == before;
    }
  }

  /** The whole of one audit record: its changes extend the sightings
      before it, and a record without changes adds none. */
  lemma EventStep(history: seq<ChangeEvent>, i: nat)
    requires i < |history|
    ensures history[i].changes.None? ==> Sightings(history[..i + 1]) == Sightings(history[..i])
    ensures history[i].changes.Some? ==>
      var changes := history[i].changes.value;
      Sightings(history[..i]) + ChangeSightings(history[i].entity, changes[..0]) == Sightings(history[..i]) &&
      Sightings(history[..i + 1]) == Sightings(history[..i]) + ChangeSightings(history[i].entity, changes[..|changes|])
  {
    SightingsSnoc(history, i);
    if history[i].changes.Some? {
      var changes := history[i].changes.value;
      assert changes[..0] == [];
      assert changes[..|changes|] == changes;
    }
  }

  /** `checkForUpdatedExperimentStatus(project_id, changeHistory)`. */
  method CheckForUpdatedExperimentStatus(cfg: Config, projectId: string, history: seq<ChangeEvent>)
    returns (table: ExperimentTable)
    ensures fresh(table) && table.Valid()
    ensures table.View() == FirstWins(ProjectLabel(cfg, projectId), Sightings(history))
  {
    table := new ExperimentTable();
    ghost var project := ProjectLabel(cfg, projectId);
    for i := 0 to |history|
      invariant table.View() == FirstWins(project, Sightings(history[..i]))
    {
      var item := history[i];
      ghost var done := Sightings(history[..i]);
      EventStep(history, i);
      if item.changes.Some? {
        var changes := item.changes.value;
        for j := 0 to |changes|
          invariant table.View() == FirstWins(project, done + ChangeSightings(item.entity, changes[..j]))
        {
          var change := changes[j];
          ChangeStep(project, done, item.entity, changes, j);
          if change.property.Some? && change.property.value == StatusProperty && item.entity.id !in table.entries {
            table.entries := table.entries[item.entity.id := StatusChange(
              item.entity.id, item.entity.name, change.after, ProjectLabel(cfg, projectId), None, None)];
            table.keys := table.keys + [item.entity.id];
          }
        }
      }
    }
    assert history[..|history|] == history;
  }

  /** Position `i` holds the first status change of experiment `id`. */
  ghost predicate FirstSightingAt(ss: seq<Sighting>, id: Id, i: int)
  {
    0 <= i < |ss| && ss[i].entity.id == id &&
    forall j :: 0 <= j < i ==> ss[j].entity.id != id
  }

  /** A first sighting of an id that already occurs in `ss[..n]` lies in
      that prefix. */
  lemma FirstSightingInPrefix(ss: seq<Sighting>, n: nat, id: Id, i: int)
    requires n <= |ss| && FirstSightingAt(ss, id, i)
    requires exists k :: 0 <= k < n && ss[k].entity.id == id
    ensures i < n && FirstSightingAt(ss[..n], id, i)
  {
    var k :| 0 <= k < n && ss[k].entity.id == id;
    assert i <= k;
  }

  /** An experiment gets a record exactly when the feed holds a status
      change for it, and the record carries the first such change. */
  lemma {:induction false} FirstSightingWins(project: string, ss: seq<Sighting>, id: Id)
    ensures id in FirstWins(project, ss).entries <==> exists i :: 0 <= i < |ss| && ss[i].entity.id == id
    ensures forall i :: FirstSightingAt(ss, id, i) ==> FirstWins(project, ss).entries[id] == NewRecord(project, ss[i])
  {
    if ss != [] {
      var pre := ss[..|ss| - 1];
      var s := ss[|ss| - 1];
      FirstSightingWins(project, pre, id);
      assert forall i :: 0 <= i < |pre| ==> ss[i] == pre[i];
      if exists k :: 0 <= k < |pre| && pre[k].entity.id == id {
        forall i | FirstSightingAt(ss, id, i) ensures FirstWins(project, ss).entries[id] == NewRecord(project, ss[i]) {
          FirstSightingInPrefix(ss, |pre|, id, i);
        }
      } else {
        forall i | FirstSightingAt(ss, id, i) ensures i == |pre| {
        }
      }
    }
  }

  /** A key listed before another was first seen before it. */
  ghost predicate ListedInDiscoveryOrder(ss: seq<Sighting>, keys: seq<Id>)
  {
    forall a, b, i, j ::
      0 <= a < b < |keys| && FirstSightingAt(ss, keys[a], i) && FirstSightingAt(ss, keys[b], j) ==> i < j
  }

  /** The keys come out in the order in which their first status changes
      appear in the feed. */
  lemma {:induction false} KeysInDiscoveryOrder(project: string, ss: seq<Sighting>)
    ensures ListedInDiscoveryOrder(ss, FirstWins(project, ss).keys)
  {
    if ss != [] {
      var pre := ss[..|ss| - 1];
      var s := ss[|ss| - 1];
      var t0 := FirstWins(project, pre);
      var t := FirstWins(project, ss);
      KeysInDiscoveryOrder(project, pre);
      assert forall i :: 0 <= i < |pre| ==> ss[i] == pre[i];
      forall a, i | 0 <= a < |t0.keys| && FirstSightingAt(ss, t0.keys[a], i)
        ensures i < |pre| && FirstSightingAt(pre, t0.keys[a], i)
      {
        FirstSightingWins(project, pre, t0.keys[a]);
        FirstSightingInPrefix(ss, |pre|, t0.keys[a], i);
      }
      if s.entity.id !in t0.entries {
        FirstSightingWins(project, pre, s.entity.id);
        forall a, b, i, j | 0 <= a < b < |t.keys| && FirstSightingAt(ss, t.keys[a], i) && FirstSightingAt(ss, t.keys[b], j)
          ensures i < j
        {
          assert t.keys[a] == t0.keys[a];
          if b < |t0.keys| {
            assert t.keys[b] == t0.keys[b];
            assert FirstSightingAt(pre, t0.keys[a], i) && FirstSightingAt(pre, t0.keys[b], j);
          } else {
            assert t.keys[b] == s.entity.id;
            assert j == |pre|;
          }
        }
      } else {
        assert t == t0;
      }
    }
  }

  /** The ids listed are exactly the ids that have a status change. */
  lemma ListedIffSighted(project: string, ss: seq<Sighting>, id: Id)
    ensures id in FirstWins(project, ss).keys <==> exists s :: s in ss && s.entity.id == id
  {
    FirstSightingWins(project, ss, id);
    if exists s :: s in ss && s.entity.id == id {
      var s :| s in ss && s.entity.id == id;
      var i :| 0 <= i < |ss| && ss[i] == s;
    }
  }

  /** `t2` lists every key of `t1`, in the same order and first, with the
      same record. */
  ghost predicate Extends(t1: Table, t2: Table)
  {
    t1.keys <= t2.keys &&
    forall id :: id in t1.entries ==> id in t2.entries && t2.entries[id] == t1.entries[id]
  }

  lemma ExtendsTransitive(t1: Table, t2: Table, t3: Table)
    requires Extends(t1, t2) && Extends(t2, t3)
    ensures Extends(t1, t3)
  {
    assert t3.keys[..|t2.keys|][..|t1.keys|] == t3.keys[..|t1.keys|];
  }

  /** One more status change keeps every key and record already there. */
  lemma FirstWinsGrows(project: string, ss: seq<Sighting>, more: seq<Sighting>)
    requires more != []
    ensures Extends(FirstWins(project, ss + more[..|more| - 1]), FirstWins(project, ss + more))
  {
    assert ss + more == (ss + more[..|more| - 1]) + [more[|more| - 1]];
    FirstWinsSnoc(project, ss + more[..|more| - 1], more[|more| - 1]);
  }

  /** Status changes further on in the feed never alter a record already
      made nor move a key already listed. */
  lemma {:induction false} LaterSightingsKeepRecords(project: string, ss: seq<Sighting>, more: seq<Sighting>)
    ensures Extends(FirstWins(project, ss), FirstWins(project, ss + more))
  {
    if more == [] {
      assert ss + more == ss;
    } else {
      var front := more[..|more| - 1];
      LaterSightingsKeepRecords(project, ss, front);
      FirstWinsGrows(project, ss, more);
      ExtendsTransitive(FirstWins(project, ss), FirstWins(project, ss + front), FirstWins(project, ss + more));
    }
  }

  lemma SightingsAppendLast(h1: seq<ChangeEvent>, h2: seq<ChangeEvent>)
    requires h2 != []
    ensures Sightings(h1 + h2) == Sightings(h1 + h2[..|h2| - 1]) + EventSightings(h2[|h2| - 1])
  {
    var h := h1 + h2;
    assert h[..|h| - 1] == h1 + h2[..|h2| - 1];
  }

  lemma {:induction false} SightingsAppend(h1: seq<ChangeEvent>, h2: seq<ChangeEvent>)
    ensures Sightings(h1 + h2) == Sightings(h1) + Sightings(h2)
  {
    if h2 == [] {
      assert h1 + h2 == h1;
    } else {
      SightingsAppendLast(h1, h2);
      SightingsAppend(h1, h2[..|h2| - 1]);
    }
  }

  /** Audit records further on in the feed leave every record built from the
      earlier ones as it was, and only add keys after the earlier ones. */
  lemma LaterEventsKeepRecords(cfg: Config, projectId: string, h1: seq<ChangeEvent>, h2: seq<ChangeEvent>)
    ensures var project := ProjectLabel(cfg, projectId);
      var t1, t := FirstWins(project, Sightings(h1)), FirstWins(project, Sightings(h1 + h2));
      t1.keys <= t.keys &&
      forall id :: id in t1.entries ==> id in t.entries && t.entries[id] == t1.entries[id]
  {
    SightingsAppend(h1, h2);
    LaterSightingsKeepRecords(ProjectLabel(cfg, projectId), Sightings(h1), Sightings(h2));
  }

  /** Position `c` of audit record `e` is a change of the `status` property. */
  ghost predicate StatusChangeAt(history: seq<ChangeEvent>, e: int, c: int)
  {
    0 <= e < |history| && history[e].changes.Some? &&
    0 <= c < |history[e].changes.value| &&
    history[e].changes.value[c].property == Some(StatusProperty)
  }

  lemma {:induction false} ChangeSightingsMembers(entity: Entity, changes: seq<Change>, s: Sighting)
    ensures s in ChangeSightings(entity, changes) <==>
      exists c :: 0 <= c < |changes| && changes[c].property == Some(StatusProperty) &&
                  s == Sighting(entity, changes[c].after)
  {
    if changes != [] {
      ChangeSightingsMembers(entity, changes[..|changes| - 1], s);
      assert forall c :: 0 <= c < |changes| - 1 ==> changes[..|changes| - 1][c] == changes[c];
    }
  }

  /** Audit record `e`'s change `c` is a status change giving `s`. */
  ghost predicate SightedAt(history: seq<ChangeEvent>, e: int, c: int, s: Sighting)
  {
    StatusChangeAt(history, e, c) && s == Sighting(history[e].entity, history[e].changes.value[c].after)
  }

  /** The sightings are exactly the `status` changes of the records that
      have `changes`: other properties and records without changes give
      none. */
  lemma {:induction false} SightingsAreStatusChanges(history: seq<ChangeEvent>, s: Sighting)
    ensures s in Sightings(history) <==> exists e, c :: SightedAt(history, e, c, s)
  {
    if history != [] {
      var n := |history| - 1;
      var front, last := history[..n], history[n];
      SightingsAreStatusChanges(front, s);
      assert Sightings(history) == Sightings(front) + EventSightings(last);
      if last.changes.Some? {
        ChangeSightingsMembers(last.entity, last.changes.value, s);
      }
      if s in Sightings(history) {
        if s in Sightings(front) {
          var e, c :| SightedAt(front, e, c, s);
          assert front[e] == history[e];
          assert SightedAt(history, e, c, s);
        } else {
          var c :| 0 <= c < |last.changes.value| && last.changes.value[c].property == Some(StatusProperty) &&
                   s == Sighting(last.entity, last.changes.value[c].after);
          assert SightedAt(history, n, c, s);
        }
      }
      if exists e, c :: SightedAt(history, e, c, s) {
        var e, c :| SightedAt(history, e, c, s);
        if e < n {
          assert front[e] == history[e];
          assert SightedAt(front, e, c, s);
        } else {
          assert s in EventSightings(last);
        }
      }
    }
  }

  /** An example feed: experiment 7 starts, then is renamed and paused in
      one audit record; an audience record carries no changes. */
  function ExampleFeed(): seq<ChangeEvent>
  {
    [ChangeEvent(Entity(7, "Banner test"), Some([Change(Some("status"), "running")])),
     ChangeEvent(Entity(7, "Banner test"), Some([Change(Some("name"), "Banner test 2"), Change(Some("status"), "paused")])),
     ChangeEvent(Entity(8, "Audience"), None)]
  }

  lemma ExampleFeedSightings()
    ensures Sightings(ExampleFeed()) ==
      [Sighting(Entity(7, "Banner test"), "running"), Sighting(Entity(7, "Banner test"), "paused")]
  {
    var entity := Entity(7, "Banner test");
    var history := ExampleFeed();
    var first := [Change(Some("status"), "running")];
    var second := [Change(Some("name"), "Banner test 2"), Change(Some("status"), "paused")];
    assert ChangeSightings(entity, first) == [Sighting(entity, "running")] by {
      assert first[..0] == [];
    }
    assert ChangeSightings(entity, second) == [Sighting(entity, "paused")] by {
      assert second[..1][..0] == [] && second[..1] == [second[0]];
      assert ChangeSightings(entity, second[..1]) == [];
    }
    assert Sightings(history[..1]) == [Sighting(entity, "running")] by {
      assert history[..1][..0] == [];
    }
    assert Sightings(history[..2]) == [Sighting(entity, "running"), Sighting(entity, "paused")] by {
      assert history[..2][..1] == history[..1];
    }
    assert history[..3] == history && history[..3][..2] == history[..2];
  }

  /** The first status change of an experiment is kept; a later status
      change and a change of another property are ignored. */
  lemma FirstStatusChangeKept(project: string)
    ensures FirstWins(project, Sightings(ExampleFeed())) ==
      Table([7], map[7 := StatusChange(7, "Banner test", "running", project, None, None)])
  {
    ExampleFeedSightings();
    var entity := Entity(7, "Banner test");
    var ss := [Sighting(entity, "running"), Sighting(entity, "paused")];
    assert ss[..1] == [ss[0]] && ss[..1][..0] == [];
    var record := StatusChange(7, "Banner test", "running", project, None, None);
    assert FirstWins(project, ss[..1]) == Table([7], map[7 := record]);
  }
}
