/**
 The filter and match transactions as they run against the tables: each method makes the statements
 of its source and is proved to be the step that `MatchIndex` gives it.
 */
module MatchDatabase {
  import opened Basics
  import opened Notices
  import opened Matcher
  import opened Model = MatchIndex

  /** matchWriteResult */
  datatype WriteResult = WriteResult(created: bool, applied: bool)

  class Database {
    const t: Text
    var filters: map<Id, Filter>
    var matches: map<(Id, Id), Match>
    ghost var read: set<StoredFilter>

    ghost function State(): Db
      reads this
    {
      Db(filters, matches, read)
    }

    ghost predicate Valid()
      reads this
    {
      Inv(t, State())
    }

    constructor (t: Text)
      ensures Valid() && State() == EMPTY && this.t == t
    {
      this.t := t;
      filters, matches, read := map[], map[], {};
    }

    /** The enabled filters, each once. */
    method EnabledFilters() returns (r: seq<StoredFilter>)
      requires Valid()
      modifies this`read
      ensures Valid() && State() == Step(t, old(State()), Load)
      ensures (forall sf :: sf in r <==> sf in Enabled(State())) && DistinctFilters(r)
    {
      hide Inv;
      StepKeepsInv(t, State(), Load);
      r := [];
      var rest := filters.Keys;
      while rest != {}
        invariant rest <= filters.Keys
        invariant DistinctFilters(r) && forall sf <- r :: sf.id !in rest
        invariant forall sf :: sf in r <==> sf in Enabled(State()) && sf.id !in rest
        decreases rest
      {
        var id :| id in rest;
        if filters[id].enabled {
          r := r + [StoredFilter(id, filters[id].rule, filters[id].revision)];
        }
        rest := rest - {id};
      }
      read := read + Enabled(State());
    }

    /** Insert with DO NOTHING, then an update when nothing was inserted; both behind the fence. */
    method UpsertMatchRevision(sf: StoredFilter, now: Time, id: Id, n: Notice, details: seq<Detail>)
      returns (result: WriteResult)
      requires MatchAt(t, now, n, sf.rule) == Result(true, details)
      modifies this`matches
      ensures State() == Write(t, old(State()), sf, now, id, n)
      ensures result.applied == Eligible(old(State()), sf)
      ensures result.created == (Eligible(old(State()), sf) && (sf.id, id) !in old(matches))
    {
      hide MatchAt;
      var eligible := sf.id in filters && filters[sf.id].enabled && filters[sf.id].revision == sf.revision;
      if eligible && (sf.id, id) !in matches {
        matches := matches[(sf.id, id) := Match(details, now, n)];
        return WriteResult(true, true);
      }
      if eligible && (sf.id, id) in matches {
        matches := matches[(sf.id, id) := Match(details, now, n)];
        return WriteResult(false, true);
      }
      return WriteResult(false, false);
    }

    method DeleteMatchRevision(sf: StoredFilter, now: Time, id: Id, n: Notice) returns (deleted: bool)
      requires !MatchAt(t, now, n, sf.rule).matched
      modifies this`matches
      ensures State() == Write(t, old(State()), sf, now, id, n)
      ensures deleted == (Eligible(old(State()), sf) && (sf.id, id) in old(matches))
    {
      hide MatchAt;
      var eligible := sf.id in filters && filters[sf.id].enabled && filters[sf.id].revision == sf.revision;
      deleted := eligible && (sf.id, id) in matches;
      if eligible {
        matches := matches - {(sf.id, id)};
      }
    }

    /** One evaluation of a notice and its fenced write. */
    method Apply(sf: StoredFilter, now: Time, id: Id, n: Notice) returns (created: bool)
      modifies this`matches
      ensures State() == Write(t, old(State()), sf, now, id, n)
      ensures created == ((sf.id, id) in matches && (sf.id, id) !in old(matches))
    {
      hide MatchAt;
      var result := Evaluate(t, now, n, sf.rule);
      if !result.matched {
        var deleted := DeleteMatchRevision(sf, now, id, n);
        return false;
      }
      var written := UpsertMatchRevision(sf, now, id, n, result.details);
      return written.created;
    }

    method RefreshFilterMatches(now: Time, sf: StoredFilter, active: Active)
      modifies this`matches
      ensures State() == Refresh(t, old(State()), now, sf, active)
    {
      hide MatchAt, Write;
      for i := 0 to |active|
        invariant State() == Refresh(t, old(State()), now, sf, active[..i])
      {
        assert active[..i + 1][..i] == active[..i];
        var created := Apply(sf, now, active[i].0, active[i].1);
      }
      assert active[..|active|] == active;
    }

    method SelectName(name: string) returns (r: Option<Id>)
      requires NamesUnique(filters)
      ensures r == FindName(filters, name)
    {
      var rest := filters.Keys;
      while rest != {}
        invariant rest <= filters.Keys
        invariant forall id :: id in filters.Keys - rest ==> filters[id].name != name
        decreases rest
      {
        var id :| id in rest;
        if filters[id].name == name {
          return Some(id);
        }
        rest := rest - {id};
      }
      return None;
    }

    /**
     Save a filter and refresh its matches; `ok` is false when the generated id is taken. The index
     stays right when the new revision is one that no reader has seen of the filter.
     */
    method SaveFilter(name: string, rule: Rule, newId: Id, revision: Time, now: Time, active: Active) returns (ok: bool)
      requires NamesUnique(filters)
      modifies this`filters, this`matches
      ensures State() == Save(t, old(State()), name, rule, newId, revision, now, active)
      ensures NamesUnique(filters)
      ensures old(Valid()) && Distinct(old(State()), DoSave(name, rule, newId, revision, now, active)) ==> Valid()
      ensures ok == (FindName(old(filters), name).Some? || newId !in old(filters))
    {
      hide Inv, Refresh, MatchAt, Distinct, NamesUnique;
      if Inv(t, State()) && Distinct(State(), DoSave(name, rule, newId, revision, now, active)) {
        StepKeepsInv(t, State(), DoSave(name, rule, newId, revision, now, active));
      }
      SaveKeepsNames(State(), name, rule, newId, revision);
      var found := SelectName(name);
      var id := newId;
      if found.None? {
        if newId in filters {
          return false;
        }
        filters := filters[newId := Filter(name, rule, true, revision)];
      } else {
        id := found.value;
        var rulesChanged := filters[id].rule != rule;
        if rulesChanged || !filters[id].enabled {
          filters := filters[id := Filter(name, rule, true, revision)];
        }
        if rulesChanged {
          matches := WithoutFilter(matches, id);
        }
      }
      RefreshFilterMatches(now, StoredFilter(id, rule, filters[id].revision), active);
      return true;
    }

    lemma SaveKeepsNames(db: Db, name: string, rule: Rule, newId: Id, revision: Time)
      requires NamesUnique(db.filters)
      ensures FindName(db.filters, name).Some? || newId !in db.filters ==>
        NamesUnique(SaveRow(db, name, rule, newId, revision).0.filters)
    {
    }

    lemma ToggleKeepsNames(filters: map<Id, Filter>, id: Id, f: Filter)
      requires NamesUnique(filters) && id in filters && f.name == filters[id].name
      ensures NamesUnique(filters[id := f])
    {
    }

    method ToggleFilter(id: Id, enabled: bool, revision: Time, now: Time, active: Active) returns (ok: bool)
      requires NamesUnique(filters)
      modifies this`filters, this`matches
      ensures State() == Toggle(t, old(State()), id, enabled, revision, now, active)
      ensures NamesUnique(filters)
      ensures old(Valid()) && Distinct(old(State()), DoToggle(id, enabled, revision, now, active)) ==> Valid()
      ensures ok == (id in old(filters))
    {
      hide Inv, Refresh, MatchAt, Distinct, NamesUnique;
      if Inv(t, State()) && Distinct(State(), DoToggle(id, enabled, revision, now, active)) {
        StepKeepsInv(t, State(), DoToggle(id, enabled, revision, now, active));
      }
      if id !in filters {
        return false;
      }
      ToggleKeepsNames(filters, id, filters[id].(enabled := enabled, revision := revision));
      filters := filters[id := filters[id].(enabled := enabled, revision := revision)];
      if enabled {
        RefreshFilterMatches(now, StoredFilter(id, filters[id].rule, filters[id].revision), active);
      } else {
        matches := WithoutFilter(matches, id);
      }
      return true;
    }

    method DeleteFilter(id: Id) returns (ok: bool)
      requires Valid()
      modifies this`filters, this`matches
      ensures Valid() && State() == Remove(old(State()), id)
      ensures ok == (id in old(filters))
    {
      hide Inv;
      RemoveKeepsInv(t, State(), id);
      if id !in filters {
        return false;
      }
      filters := filters - {id};
      matches := WithoutFilter(matches, id);
      return true;
    }
  }

  predicate DistinctFilters(filters: seq<StoredFilter>) {
    forall i, j :: 0 <= i < j < |filters| ==> filters[i].id != filters[j].id
  }
}
