/**
 The matches table as an index of the matcher: filters, the revision fence on every write, and the
 races between a collector that holds an old list of filters and the operators who change them.
 The rows are those of one tenant.
 */
module MatchIndex {
  import opened Basics
  import opened Notices
  import opened Matcher

  /** A row of filters; `revision` is updated_at. */
  datatype Filter = Filter(name: string, rule: Rule, enabled: bool, revision: Time)

  /** What a reader of the filters table holds. */
  datatype StoredFilter = StoredFilter(id: Id, rule: Rule, revision: Time)

  /** A row of matches. `at` and `notice` are not columns: they say which evaluation gave the details. */
  datatype Match = Match(details: seq<Detail>, at: Time, notice: Notice)

  /** `read` is every filter list entry that a collector has ever loaded. */
  datatype Db = Db(filters: map<Id, Filter>, matches: map<(Id, Id), Match>, read: set<StoredFilter>)

  /** Notices whose deadline has not passed, with their ids. */
  type Active = seq<(Id, Notice)>

  // ---- fenced writes ----

  /** The eligible_filter subquery: the filter is enabled and still at the reader's revision. */
  predicate Eligible(db: Db, sf: StoredFilter) {
    sf.id in db.filters && db.filters[sf.id].enabled && db.filters[sf.id].revision == sf.revision
  }

  /** Evaluate the rule a reader holds and write the outcome: an upsert, or a delete. */
  function Write(t: Text, db: Db, sf: StoredFilter, now: Time, id: Id, n: Notice): Db {
    var result := MatchAt(t, now, n, sf.rule);
    if !Eligible(db, sf) then db
    else if result.matched then db.(matches := db.matches[(sf.id, id) := Match(result.details, now, n)])
    else db.(matches := db.matches - {(sf.id, id)})
  }

  function Refresh(t: Text, db: Db, now: Time, sf: StoredFilter, active: Active): Db {
    if active == [] then db
    else
      var last := |active| - 1;
      Write(t, Refresh(t, db, now, sf, active[..last]), sf, now, active[last].0, active[last].1)
  }

  // ---- operators ----

  ghost function FindName(filters: map<Id, Filter>, name: string): (r: Option<Id>)
    ensures r.Some? ==> r.value in filters && filters[r.value].name == name
    ensures r.None? ==> forall id <- filters :: filters[id].name != name
  {
    if id :| id in filters && filters[id].name == name then Some(id) else None
  }

  function WithoutFilter(matches: map<(Id, Id), Match>, id: Id): map<(Id, Id), Match> {
    map k | k in matches && k.0 != id :: matches[k]
  }

  /** saveFilter: the state it leaves and the id of the named filter. */
  ghost function SaveRow(db: Db, name: string, rule: Rule, newId: Id, revision: Time): (Db, Id) {
    match FindName(db.filters, name)
    case None => (db.(filters := db.filters[newId := Filter(name, rule, true, revision)]), newId)
    case Some(id) =>
      var f := db.filters[id];
      if f.rule == rule && f.enabled then (db, id)
      else
        (db.(filters := db.filters[id := Filter(name, rule, true, revision)],
             matches := if f.rule == rule then db.matches else WithoutFilter(db.matches, id)), id)
  }

  /** SaveFilter: save, then refresh the filter's matches at the revision just read back. */
  ghost function Save(t: Text, db: Db, name: string, rule: Rule, newId: Id, revision: Time, now: Time,
                      active: Active): Db {
    if FindName(db.filters, name).None? && newId in db.filters then db
    else
      var (saved, id) := SaveRow(db, name, rule, newId, revision);
      Refresh(t, saved, now, StoredFilter(id, rule, saved.filters[id].revision), active)
  }

  /** ToggleFilter: enabling refreshes the filter's matches, disabling deletes them. */
  function Toggle(t: Text, db: Db, id: Id, enabled: bool, revision: Time, now: Time, active: Active): Db {
    if id !in db.filters then db
    else
      var toggled := db.(filters := db.filters[id := db.filters[id].(enabled := enabled, revision := revision)]);
      if enabled then Refresh(t, toggled, now, StoredFilter(id, db.filters[id].rule, revision), active)
      else toggled.(matches := WithoutFilter(db.matches, id))
  }

  /** deleteFilter: the matches go with their filter. */
  function Remove(db: Db, id: Id): Db {
    if id !in db.filters then db
    else db.(filters := db.filters - {id}, matches := WithoutFilter(db.matches, id))
  }

  /** The enabled filters as a reader sees them now. */
  function Enabled(db: Db): set<StoredFilter> {
    set id | id in db.filters && db.filters[id].enabled ::
      StoredFilter(id, db.filters[id].rule, db.filters[id].revision)
  }

  // ---- runs ----

  datatype Action =
    | Load
    | DoWrite(sf: StoredFilter, now: Time, id: Id, n: Notice)
    | DoSave(name: string, rule: Rule, newId: Id, revision: Time, now: Time, active: Active)
    | DoToggle(id: Id, enabled: bool, revision: Time, now: Time, active: Active)
    | DoRemove(id: Id)

  ghost function Step(t: Text, db: Db, a: Action): Db {
    match a
    case Load => db.(read := db.read + Enabled(db))
    case DoWrite(sf, now, id, n) => if sf in db.read then Write(t, db, sf, now, id, n) else db
    case DoSave(name, rule, newId, revision, now, active) => Save(t, db, name, rule, newId, revision, now, active)
    case DoToggle(id, enabled, revision, now, active) => Toggle(t, db, id, enabled, revision, now, active)
    case DoRemove(id) => Remove(db, id)
  }

  /** A filter's new revision is none that a reader has seen of it, and a new id is new. */
  ghost predicate FreshFor(db: Db, id: Id, revision: Time) {
    forall sf <- db.read :: sf.id == id ==> sf.revision != revision
  }

  ghost predicate Distinct(db: Db, a: Action) {
    match a
    case DoSave(name, rule, newId, revision, _, _) =>
      var found := FindName(db.filters, name);
      if found.None? then forall sf <- db.read :: sf.id != newId
      else FreshFor(db, found.value, revision)
    case DoToggle(id, _, revision, _, _) => FreshFor(db, id, revision)
    case _ => true
  }

  ghost function Run(t: Text, db: Db, run: seq<Action>): Db
    decreases |run|
  {
    if run == [] then db else Run(t, Step(t, db, run[0]), run[1..])
  }

  ghost predicate DistinctRevisions(t: Text, db: Db, run: seq<Action>)
    decreases |run|
  {
    run == [] || (Distinct(db, run[0]) && DistinctRevisions(t, Step(t, db, run[0]), run[1..]))
  }

  const EMPTY := Db(map[], map[], {})

  // ---- the invariant ----

  /** The row is an evaluation of the filter's current rule that matched. */
  ghost predicate MatchInv(t: Text, db: Db, k: (Id, Id), m: Match) {
    && k.0 in db.filters && db.filters[k.0].enabled
    && MatchAt(t, m.at, m.notice, db.filters[k.0].rule) == Result(true, m.details)
  }

  /** A reader at the current revision holds the current rule. */
  ghost predicate ReadInv(db: Db, sf: StoredFilter) {
    sf.id in db.filters && db.filters[sf.id].revision == sf.revision ==> db.filters[sf.id].rule == sf.rule
  }

  ghost predicate MatchesOk(t: Text, db: Db) {
    forall k <- db.matches :: MatchInv(t, db, k, db.matches[k])
  }

  ghost predicate NamesUnique(filters: map<Id, Filter>) {
    forall a, b :: a in filters && b in filters && filters[a].name == filters[b].name ==> a == b
  }

  ghost predicate Inv(t: Text, db: Db) {
    && MatchesOk(t, db)
    && (forall sf <- db.read :: ReadInv(db, sf))
    && NamesUnique(db.filters)
  }

  lemma WriteKeepsMatches(t: Text, db: Db, sf: StoredFilter, now: Time, id: Id, n: Notice)
    requires MatchesOk(t, db) && ReadInv(db, sf)
    ensures MatchesOk(t, Write(t, db, sf, now, id, n))
  {
    hide MatchAt;
    var db' := Write(t, db, sf, now, id, n);
    forall k | k in db'.matches
      ensures MatchInv(t, db', k, db'.matches[k])
    {
      assert k in db.matches && db'.matches[k] == db.matches[k] ==> MatchInv(t, db, k, db.matches[k]);
    }
  }

  lemma {:induction false} RefreshKeepsMatches(t: Text, db: Db, now: Time, sf: StoredFilter, active: Active)
    requires MatchesOk(t, db) && ReadInv(db, sf)
    ensures var db' := Refresh(t, db, now, sf, active);
      MatchesOk(t, db') && db'.filters == db.filters && db'.read == db.read
    decreases |active|
  {
    if active != [] {
      hide MatchesOk, MatchAt;
      var last := |active| - 1;
      RefreshKeepsMatches(t, db, now, sf, active[..last]);
      WriteKeepsMatches(t, Refresh(t, db, now, sf, active[..last]), sf, now, active[last].0, active[last].1);
    }
  }

  /** Rewriting a filter's row keeps the rows of matches that are not of a changed rule. */
  lemma FilterChangeKeepsInv(t: Text, db: Db, id: Id, f: Filter, matches: map<(Id, Id), Match>)
    requires Inv(t, db)
    requires id in db.filters ==> db.filters[id].name == f.name && FreshFor(db, id, f.revision)
    requires id !in db.filters ==> FindName(db.filters, f.name).None? && forall sf <- db.read :: sf.id != id
    requires matches == WithoutFilter(db.matches, id)
      || (matches == db.matches
        && (id in db.filters ==> f.rule == db.filters[id].rule && (f.enabled || !db.filters[id].enabled)))
    ensures Inv(t, db.(filters := db.filters[id := f], matches := matches))
  {
    hide MatchAt;
    var db' := db.(filters := db.filters[id := f], matches := matches);
    forall k | k in db'.matches
      ensures MatchInv(t, db', k, db'.matches[k])
    {
      assert MatchInv(t, db, k, db.matches[k]);
    }
    forall sf | sf in db'.read
      ensures ReadInv(db', sf)
    {
      assert ReadInv(db, sf);
    }
  }

  lemma RefreshCurrent(t: Text, db: Db, id: Id, now: Time, active: Active)
    requires Inv(t, db) && id in db.filters
    ensures Inv(t, Refresh(t, db, now, StoredFilter(id, db.filters[id].rule, db.filters[id].revision), active))
  {
    hide MatchesOk, Refresh;
    var sf := StoredFilter(id, db.filters[id].rule, db.filters[id].revision);
    RefreshKeepsMatches(t, db, now, sf, active);
    forall s | s in db.read ensures ReadInv(Refresh(t, db, now, sf, active), s) {
      assert ReadInv(db, s);
    }
  }

  lemma SaveKeepsInv(t: Text, db: Db, a: Action)
    requires Inv(t, db) && a.DoSave? && Distinct(db, a)
    ensures Inv(t, Step(t, db, a))
  {
    hide Inv, MatchAt, WithoutFilter;
    var found := FindName(db.filters, a.name);
    if found.Some? || a.newId !in db.filters {
      var (saved, id) := SaveRow(db, a.name, a.rule, a.newId, a.revision);
      var f := Filter(a.name, a.rule, true, a.revision);
      if found.None? {
        FilterChangeKeepsInv(t, db, id, f, db.matches);
      } else if db.filters[id].rule != a.rule {
        FilterChangeKeepsInv(t, db, id, f, WithoutFilter(db.matches, id));
      } else if !db.filters[id].enabled {
        FilterChangeKeepsInv(t, db, id, f, db.matches);
      }
      RefreshCurrent(t, saved, id, a.now, a.active);
    }
  }

  lemma ToggleKeepsInv(t: Text, db: Db, a: Action)
    requires Inv(t, db) && a.DoToggle? && Distinct(db, a)
    ensures Inv(t, Step(t, db, a))
  {
    hide Inv, MatchAt, WithoutFilter;
    if a.id in db.filters {
      var f := db.filters[a.id].(enabled := a.enabled, revision := a.revision);
      if a.enabled {
        FilterChangeKeepsInv(t, db, a.id, f, db.matches);
        RefreshCurrent(t, db.(filters := db.filters[a.id := f]), a.id, a.now, a.active);
      } else {
        FilterChangeKeepsInv(t, db, a.id, f, WithoutFilter(db.matches, a.id));
      }
    }
  }

  lemma RemoveKeepsInv(t: Text, db: Db, id: Id)
    requires Inv(t, db)
    ensures Inv(t, Remove(db, id))
  {
    hide MatchAt;
    var db' := Remove(db, id);
    forall k | k in db'.matches ensures MatchInv(t, db', k, db'.matches[k]) {
      assert MatchInv(t, db, k, db.matches[k]);
    }
    forall sf | sf in db'.read ensures ReadInv(db', sf) {
      assert ReadInv(db, sf);
    }
  }

  lemma StepKeepsInv(t: Text, db: Db, a: Action)
    requires Inv(t, db) && Distinct(db, a)
    ensures Inv(t, Step(t, db, a))
  {
    match a
    case Load =>
      hide MatchAt;
      var db' := Step(t, db, a);
      forall k | k in db'.matches ensures MatchInv(t, db', k, db'.matches[k]) {
        assert MatchInv(t, db, k, db.matches[k]);
      }
      forall sf | sf in db'.read ensures ReadInv(db', sf) {
        assert sf in db.read ==> ReadInv(db, sf);
      }
    case DoWrite(sf, now, id, n) =>
      if sf in db.read {
        hide MatchesOk, MatchAt;
        WriteKeepsMatches(t, db, sf, now, id, n);
        var db' := Step(t, db, a);
        forall s | s in db'.read ensures ReadInv(db', s) {
          assert ReadInv(db, s);
        }
      }
    case DoSave(_, _, _, _, _, _) => SaveKeepsInv(t, db, a);
    case DoToggle(_, _, _, _, _) => ToggleKeepsInv(t, db, a);
    case DoRemove(id) => RemoveKeepsInv(t, db, id);
  }

  lemma {:induction false} RunKeepsInv(t: Text, db: Db, run: seq<Action>)
    requires Inv(t, db) && DistinctRevisions(t, db, run)
    ensures Inv(t, Run(t, db, run))
    decreases |run|
  {
    if run != [] {
      hide Inv, Step, Distinct;
      StepKeepsInv(t, db, run[0]);
      RunKeepsInv(t, Step(t, db, run[0]), run[1..]);
    }
  }

  // ---- theorems ----

  /**
   Under any interleaving of collectors with old filter lists and operators who save, enable, disable
   and delete filters, every stored match belongs to an enabled filter and was decided by that
   filter's current rule.
   */
  lemma EveryMatchIsCurrent(t: Text, run: seq<Action>, filter: Id, notice: Id)
    requires DistinctRevisions(t, EMPTY, run)
    requires (filter, notice) in Run(t, EMPTY, run).matches
    ensures var db := Run(t, EMPTY, run); var m := db.matches[(filter, notice)];
      && filter in db.filters && db.filters[filter].enabled
      && MatchAt(t, m.at, m.notice, db.filters[filter].rule) == Result(true, m.details)
      && Accepts(t, m.at, m.notice, db.filters[filter].rule)
  {
    RunKeepsInv(t, EMPTY, run);
    var db := Run(t, EMPTY, run);
    var m := db.matches[(filter, notice)];
    assert MatchInv(t, db, (filter, notice), m);
    MatchedIffAccepted(t, m.at, m.notice, db.filters[filter].rule);
  }

  predicate Current(db: Db, sf: StoredFilter) {
    sf.id in db.filters && db.filters[sf.id].revision == sf.revision
  }

  lemma StaleStep(t: Text, db: Db, a: Action, sf: StoredFilter)
    requires Distinct(db, a) && sf in db.read && !Current(db, sf)
    ensures sf in Step(t, db, a).read && !Current(Step(t, db, a), sf)
  {
    hide MatchAt, Refresh;
    match a
    case DoSave(name, rule, newId, revision, now, active) =>
      if FindName(db.filters, name).Some? || newId !in db.filters {
        var (saved, id) := SaveRow(db, name, rule, newId, revision);
        RefreshFrame(t, saved, now, StoredFilter(id, rule, saved.filters[id].revision), active);
      }
    case DoToggle(id, enabled, revision, now, active) =>
      if id in db.filters && enabled {
        var toggled := db.(filters := db.filters[id := db.filters[id].(enabled := enabled, revision := revision)]);
        RefreshFrame(t, toggled, now, StoredFilter(id, db.filters[id].rule, revision), active);
      }
    case _ =>
  }

  lemma {:induction false} RefreshFrame(t: Text, db: Db, now: Time, sf: StoredFilter, active: Active)
    ensures Refresh(t, db, now, sf, active).filters == db.filters && Refresh(t, db, now, sf, active).read == db.read
    decreases |active|
  {
    hide MatchAt;
    if active != [] {
      RefreshFrame(t, db, now, sf, active[..|active| - 1]);
    }
  }

  /** Once a filter has been changed, disabled or deleted, a collector's old entry never writes again. */
  lemma {:induction false} OldEntriesStayFenced(t: Text, db: Db, run: seq<Action>, sf: StoredFilter, now: Time, id: Id,
                                                n: Notice)
    requires DistinctRevisions(t, db, run) && sf in db.read && !Current(db, sf)
    ensures Write(t, Run(t, db, run), sf, now, id, n) == Run(t, db, run)
    decreases |run|
  {
    hide MatchAt;
    if run != [] {
      hide Step, Distinct;
      StaleStep(t, db, run[0], sf);
      OldEntriesStayFenced(t, Step(t, db, run[0]), run[1..], sf, now, id, n);
    }
  }

  /** Saving, toggling or deleting a filter makes the old entries that it invalidates stale. */
  lemma ChangesInvalidateOldEntries(t: Text, db: Db, a: Action, sf: StoredFilter)
    requires Inv(t, db) && Distinct(db, a) && sf in db.read && Current(db, sf)
    ensures Current(Step(t, db, a), sf) ==>
      sf.id in db.filters && Step(t, db, a).filters[sf.id] == db.filters[sf.id]
  {
    hide MatchAt, Refresh;
    match a
    case DoSave(name, rule, newId, revision, now, active) =>
      if FindName(db.filters, name).Some? || newId !in db.filters {
        var (saved, id) := SaveRow(db, name, rule, newId, revision);
        RefreshFrame(t, saved, now, StoredFilter(id, rule, saved.filters[id].revision), active);
      }
    case DoToggle(id, enabled, revision, now, active) =>
      if id in db.filters && enabled {
        var toggled := db.(filters := db.filters[id := db.filters[id].(enabled := enabled, revision := revision)]);
        RefreshFrame(t, toggled, now, StoredFilter(id, db.filters[id].rule, revision), active);
      }
    case _ =>
  }

  /** A save of a changed rule lets an old entry through its fence exactly when it reuses that entry's revision. */
  lemma SaveFencesExactly(t: Text, db: Db, name: string, rule: Rule, newId: Id, revision: Time, now: Time,
                          active: Active, sf: StoredFilter)
    requires FindName(db.filters, name) == Some(sf.id) && db.filters[sf.id].rule != rule
    ensures Eligible(Save(t, db, name, rule, newId, revision, now, active), sf) <==> sf.revision == revision
  {
    hide MatchAt, Refresh;
    var saved := SaveRow(db, name, rule, newId, revision).0;
    RefreshFrame(t, saved, now, StoredFilter(sf.id, rule, revision), active);
  }

  const ANY := Rule([], [], [], [], [], [], None, None, [], None)
  const PAID := ANY.(minAmount := Some(1))

  /** Why revisions must differ: two saves in one clock tick let an old entry write a match of the old rule. */
  lemma EqualRevisionsLetAnOldRuleThrough(t: Text, free: Notice)
    requires free.amount == 0
    ensures var run := [DoSave("f", ANY, 0, 7, 0, []), Load, DoSave("f", PAID, 1, 7, 0, []),
                        DoWrite(StoredFilter(0, ANY, 7), 0, 5, free)];
      var db := Run(t, EMPTY, run);
      && (0, 5) in db.matches && 0 in db.filters && db.filters[0].rule == PAID
      && db.matches[(0, 5)].notice == free && !Accepts(t, 0, free, PAID)
  {
    hide MatchAt;
    MatchedIffAccepted(t, 0, free, ANY);
    var a, b := DoSave("f", ANY, 0, 7, 0, []), Load;
    var c, d := DoSave("f", PAID, 1, 7, 0, []), DoWrite(StoredFilter(0, ANY, 7), 0, 5, free);
    var run := [a, b, c, d];
    var s1 := Step(t, EMPTY, a);
    assert s1 == Db(map[0 := Filter("f", ANY, true, 7)], map[], {});
    var s2 := Step(t, s1, b);
    assert StoredFilter(0, ANY, 7) in s2.read;
    assert FindName(s2.filters, "f") == Some(0);
    var s3 := Step(t, s2, c);
    assert s3.filters[0] == Filter("f", PAID, true, 7);
    var s4 := Step(t, s3, d);
    assert run[1..] == [b, c, d] && run[1..][1..] == [c, d]
      && run[1..][1..][1..] == [d] && run[1..][1..][1..][1..] == [];
    assert Run(t, EMPTY, run) == Run(t, s1, [b, c, d]) == Run(t, s2, [c, d]) == Run(t, s3, [d]) == Run(t, s4, []);
  }

  // ---- refreshing ----

  ghost predicate DistinctIds(active: Active) {
    forall i, j :: 0 <= i < j < |active| ==> active[i].0 != active[j].0
  }

  ghost predicate Covers(active: Active, id: Id) {
    exists i :: 0 <= i < |active| && active[i].0 == id
  }

  predicate SameMatch(a: Db, b: Db, k: (Id, Id)) {
    (k in a.matches <==> k in b.matches) && (k in a.matches ==> a.matches[k] == b.matches[k])
  }

  /**
   A refresh at the filter's current revision leaves a match for an active notice exactly when the
   rule accepts that notice now, and touches no other row; at any other revision it does nothing.
   */
  lemma {:induction false} RefreshIsExact(t: Text, db: Db, now: Time, sf: StoredFilter, active: Active)
    requires DistinctIds(active)
    ensures var db' := Refresh(t, db, now, sf, active);
      && db'.filters == db.filters && db'.read == db.read
      && (!Eligible(db, sf) ==> db' == db)
      && (Eligible(db, sf) ==> forall i :: 0 <= i < |active| ==> RefreshedAt(t, db', now, sf, active[i]))
      && forall k: (Id, Id) :: k.0 != sf.id || !Covers(active, k.1) ==> SameMatch(db, db', k)
    decreases |active|
  {
    hide MatchAt, Accepts;
    if active != [] {
      var last := |active| - 1;
      var before := Refresh(t, db, now, sf, active[..last]);
      var db' := Refresh(t, db, now, sf, active);
      RefreshIsExact(t, db, now, sf, active[..last]);
      MatchedIffAccepted(t, now, active[last].1, sf.rule);
      forall i | 0 <= i < |active| && Eligible(db, sf)
        ensures RefreshedAt(t, db', now, sf, active[i])
      {
        if i < last {
          assert active[..last][i] == active[i] && RefreshedAt(t, before, now, sf, active[i]);
        }
      }
      forall k: (Id, Id) | k.0 != sf.id || !Covers(active, k.1)
        ensures SameMatch(db, db', k)
      {
        if Covers(active[..last], k.1) {
          var i :| 0 <= i < last && active[..last][i].0 == k.1;
          assert active[i].0 == k.1;
        }
        assert SameMatch(db, before, k);
        assert active[last].0 == k.1 ==> Covers(active, k.1);
      }
    }
  }

  ghost predicate RefreshedAt(t: Text, db: Db, now: Time, sf: StoredFilter, current: (Id, Notice)) {
    var k := (sf.id, current.0);
    && (k in db.matches <==> Accepts(t, now, current.1, sf.rule))
    && (k in db.matches ==> db.matches[k] == Match(MatchAt(t, now, current.1, sf.rule).details, now, current.1))
  }

  /** Saving a filter leaves it enabled with this rule and an exact index of the active notices. */
  lemma SaveIsExact(t: Text, db: Db, name: string, rule: Rule, newId: Id, revision: Time, now: Time, active: Active)
    returns (id: Id)
    requires DistinctIds(active) && (FindName(db.filters, name).Some? || newId !in db.filters)
    ensures var db' := Save(t, db, name, rule, newId, revision, now, active);
      && id in db'.filters && db'.filters[id].name == name && db'.filters[id].rule == rule && db'.filters[id].enabled
      && (forall i :: 0 <= i < |active| ==> ((id, active[i].0) in db'.matches <==> Accepts(t, now, active[i].1, rule)))
      && forall k: (Id, Id) :: k.0 != id ==> SameMatch(db, db', k)
  {
    hide MatchAt, Accepts;
    var (saved, at) := SaveRow(db, name, rule, newId, revision);
    id := at;
    var sf := StoredFilter(id, rule, saved.filters[id].revision);
    RefreshIsExact(t, saved, now, sf, active);
    var db' := Refresh(t, saved, now, sf, active);
    forall i | 0 <= i < |active|
      ensures (id, active[i].0) in db'.matches <==> Accepts(t, now, active[i].1, rule)
    {
      assert RefreshedAt(t, db', now, sf, active[i]);
    }
    forall k: (Id, Id) | k.0 != id
      ensures SameMatch(db, db', k)
    {
      assert SameMatch(saved, db', k);
    }
  }

  /**
   Saving rewrites one row of filters, the one of the name or a new one, and none when it is enabled with
   this rule already. The filter's matches of notices that are not active stay unless its rule changed,
   and then there are none left.
   */
  lemma SaveWritesOneFilter(t: Text, db: Db, name: string, rule: Rule, newId: Id, revision: Time, now: Time,
                            active: Active)
    requires NamesUnique(db.filters) && DistinctIds(active)
    ensures var db' := Save(t, db, name, rule, newId, revision, now, active);
      var unnamed := forall o <- db.filters :: db.filters[o].name != name;
      && db'.read == db.read
      && (unnamed && newId in db.filters ==> db' == db)
      && (unnamed && newId !in db.filters ==> db'.filters == db.filters[newId := Filter(name, rule, true, revision)])
      && (forall id | id in db.filters && db.filters[id].name == name ::
            var f := db.filters[id];
            && (f.rule == rule && f.enabled ==> db'.filters == db.filters)
            && (f.rule != rule || !f.enabled ==> db'.filters == db.filters[id := Filter(name, rule, true, revision)])
            && forall k: (Id, Id) :: k.0 == id && !Covers(active, k.1) ==>
                 if f.rule == rule then SameMatch(db, db', k) else k !in db'.matches)
  {
    hide MatchAt, Accepts, Refresh;
    var found := FindName(db.filters, name);
    if found.Some? || newId !in db.filters {
      var (saved, id) := SaveRow(db, name, rule, newId, revision);
      RefreshIsExact(t, saved, now, StoredFilter(id, rule, saved.filters[id].revision), active);
      var db' := Save(t, db, name, rule, newId, revision, now, active);
      forall k: (Id, Id) | k.0 == id && !Covers(active, k.1) ensures SameMatch(saved, db', k) {
      }
    }
  }

  /** Deleting a filter takes its row and its matches, and nothing else. */
  lemma RemoveIsExact(db: Db, id: Id)
    ensures var db' := Remove(db, id);
      && db'.filters == db.filters - {id} && db'.read == db.read
      && (id in db.filters ==> forall k <- db'.matches :: k.0 != id)
      && (id !in db.filters ==> db' == db)
      && forall k: (Id, Id) :: k.0 != id ==> SameMatch(db, db', k)
  {
  }

  /** Enabling a filter leaves its matches exact under its own rule, disabling it leaves none. */
  lemma ToggleIsExact(t: Text, db: Db, id: Id, enabled: bool, revision: Time, now: Time, active: Active)
    requires DistinctIds(active) && id in db.filters
    ensures var db' := Toggle(t, db, id, enabled, revision, now, active); var rule := db.filters[id].rule;
      && db'.filters == db.filters[id := db.filters[id].(enabled := enabled, revision := revision)]
      && (enabled ==>
            forall i :: 0 <= i < |active| ==>
              ((id, active[i].0) in db'.matches <==> Accepts(t, now, active[i].1, rule)))
      && (!enabled ==> forall k <- db'.matches :: k.0 != id)
      && forall k: (Id, Id) :: k.0 != id ==> SameMatch(db, db', k)
  {
    hide MatchAt, Accepts;
    var toggled := db.(filters := db.filters[id := db.filters[id].(enabled := enabled, revision := revision)]);
    var sf := StoredFilter(id, db.filters[id].rule, revision);
    var db' := Toggle(t, db, id, enabled, revision, now, active);
    if enabled {
      RefreshIsExact(t, toggled, now, sf, active);
      forall i | 0 <= i < |active|
        ensures (id, active[i].0) in db'.matches <==> Accepts(t, now, active[i].1, sf.rule)
      {
        assert RefreshedAt(t, db', now, sf, active[i]);
      }
      forall k: (Id, Id) | k.0 != id ensures SameMatch(db, db', k) {
        assert SameMatch(toggled, db', k);
      }
    }
  }
}
