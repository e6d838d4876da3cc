/**
 A collection run on its own: fetch and store, enrich what has no region, and match every active
 notice against every enabled filter. What may happen beside it is the subject of `MatchIndex`.
 */
module Collector {
  import opened Basics
  import opened Notices
  import opened Matcher
  import NoticeStore
  import NoticeBatch
  import Index = MatchIndex
  import MatchDatabase

  /** What fetching one category gives: None is an error of the source. */
  datatype Batch = Batch(notices: seq<Notice>, warnings: nat)

  datatype Lookup = Found(region: string) | LookupFailed(budget: bool, cancelled: bool)

  datatype CollectionResult = CollectionResult(fetched: nat, changed: nat, matched: nat, warnings: nat)

  predicate IsActive(n: Notice, now: Time) {
    n.deadline.Some? ==> now <= n.deadline.value.at
  }

  function Fetched(batches: seq<Option<Batch>>): nat {
    if batches == [] then 0
    else
      var last := batches[|batches| - 1];
      Fetched(batches[..|batches| - 1]) + if last.Some? then |last.value.notices| else 0
  }

  /** The warnings that the source gives. */
  function Warned(batches: seq<Option<Batch>>): nat {
    if batches == [] then 0
    else
      var last := batches[|batches| - 1];
      Warned(batches[..|batches| - 1]) + if last.Some? then last.value.warnings else 0
  }

  /** The lookups that failed. */
  function Failures(asked: seq<Lookup>): nat {
    if asked == [] then 0
    else Failures(asked[..|asked| - 1]) + if asked[|asked| - 1].LookupFailed? then 1 else 0
  }

  /** The notices that are fetched before the source first fails, in their order. */
  function Delivered(batches: seq<Option<Batch>>): seq<Notice> {
    if batches == [] || batches[0].None? then [] else batches[0].value.notices + Delivered(batches[1..])
  }

  /** A run fetches again from shortly before the last one that succeeded, or a week back. */
  function FetchFrom(last: Option<Time>, now: Time): Time {
    if last.Some? then last.value - 10 * MINUTE else now - 7 * DAY
  }

  /** What the source gives for the four categories, in their order. */
  function Batches(source: (string, Time, Time) -> Option<Batch>, from: Time, until: Time): seq<Option<Batch>> {
    [source(CONSTRUCTION, from, until), source(SERVICE, from, until), source(GOODS, from, until),
     source(FOREIGN, from, until)]
  }

  /**
   A run asks for the four categories in this order, from ten minutes before its last success or from a
   week ago; a notice is active without a deadline, and with one until it has passed.
   */
  lemma WhatARunIsAbout(source: (string, Time, Time) -> Option<Batch>, last: Option<Time>, now: Time, n: Notice)
    ensures var from := match last case Some(at) => at - 600_000_000_000 case None => now - 604_800_000_000_000;
      var batches := Batches(source, FetchFrom(last, now), now);
      && |batches| == 4
      && batches[0] == source("construction", from, now) && batches[1] == source("service", from, now)
      && batches[2] == source("goods", from, now) && batches[3] == source("foreign", from, now)
    ensures IsActive(n, now) <==> n.deadline.None? || now <= n.deadline.value.at
  {
  }

  // ---- one notice against all filters ----

  function WriteAll(t: Text, db: Index.Db, filters: seq<Index.StoredFilter>, now: Time, id: Id, n: Notice): Index.Db {
    if filters == [] then db
    else
      var last := |filters| - 1;
      Index.Write(t, WriteAll(t, db, filters[..last], now, id, n), filters[last], now, id, n)
  }

  /** The index agrees with the matcher about this notice, for these filters. */
  ghost predicate Indexed(t: Text, db: Index.Db, filters: seq<Index.StoredFilter>, now: Time, id: Id, n: Notice) {
    forall i :: 0 <= i < |filters| ==> IndexedFor(t, db, filters[i], now, id, n)
  }

  ghost predicate IndexedFor(t: Text, db: Index.Db, sf: Index.StoredFilter, now: Time, id: Id, n: Notice) {
    (sf.id, id) in db.matches <==> Accepts(t, now, n, sf.rule)
  }

  ghost predicate AllEligible(db: Index.Db, filters: seq<Index.StoredFilter>) {
    forall sf <- filters :: Index.Eligible(db, sf)
  }

  predicate HasFilter(filters: seq<Index.StoredFilter>, id: Id) {
    exists sf <- filters :: sf.id == id
  }

  /** With every entry current, the notice is indexed exactly and no other row is touched. */
  lemma {:induction false} WriteAllIsExact(t: Text, db: Index.Db, filters: seq<Index.StoredFilter>, now: Time, id: Id,
                                           n: Notice)
    requires MatchDatabase.DistinctFilters(filters) && AllEligible(db, filters)
    ensures var db' := WriteAll(t, db, filters, now, id, n);
      && db'.filters == db.filters && db'.read == db.read
      && Indexed(t, db', filters, now, id, n)
      && forall k: (Id, Id) :: k.1 != id || !HasFilter(filters, k.0) ==> Index.SameMatch(db, db', k)
    decreases |filters|
  {
    hide MatchAt, Accepts;
    if filters != [] {
      var last := |filters| - 1;
      var before := WriteAll(t, db, filters[..last], now, id, n);
      var db' := WriteAll(t, db, filters, now, id, n);
      WriteAllIsExact(t, db, filters[..last], now, id, n);
      MatchedIffAccepted(t, now, n, filters[last].rule);
      assert filters[last] in filters;
      forall i | 0 <= i < |filters| ensures IndexedFor(t, db', filters[i], now, id, n) {
        if i < last {
          assert filters[..last][i] == filters[i] && IndexedFor(t, before, filters[i], now, id, n);
        }
      }
      forall k: (Id, Id) | k.1 != id || !HasFilter(filters, k.0) ensures Index.SameMatch(db, db', k) {
        assert k.1 != id || !HasFilter(filters[..last], k.0);
        assert Index.SameMatch(db, before, k);
      }
    }
  }

  lemma SameTextIndexed(t: Text, db: Index.Db, filters: seq<Index.StoredFilter>, now: Time, id: Id, a: Notice,
                        b: Notice)
    requires Indexed(t, db, filters, now, id, a) && SameText(t, a, b)
    ensures Indexed(t, db, filters, now, id, b)
  {
    hide MatchAt, Accepts, SameText;
    forall i | 0 <= i < |filters| ensures IndexedFor(t, db, filters[i], now, id, b) {
      assert IndexedFor(t, db, filters[i], now, id, a);
      SameTextSameVerdict(t, now, a, b, filters[i].rule);
      MatchedIffAccepted(t, now, a, filters[i].rule);
      MatchedIffAccepted(t, now, b, filters[i].rule);
    }
  }

  /** Storing a looked-up region rewrites the notice's own row. */
  lemma EnrichmentStaysInItsRow(t: Text, db: NoticeStore.Db, id: Id, region: string)
    requires t.Collisionless() && NoticeStore.Inv(t, db) && id in db.rows && region != ""
    ensures var n := ReadBack(t, db.rows[id].payload).(region := region);
      var (db', outcome) := NoticeStore.Store(t, db, n);
      && outcome.Stored? && outcome.id == id && db'.rows.Keys == db.rows.Keys
      && (forall o <- db.rows :: o != id ==> db'.rows[o] == db.rows[o])
      && SameText(t, db'.rows[id].payload, n) && db'.rows[id].payload.deadline == n.deadline
      && db'.rows[id].identity == db.rows[id].identity
      && NoticeBatch.FieldsOf(t, db'.rows[id].payload) == NoticeBatch.FieldsOf(t, db.rows[id].payload)
      && (t.Normalize(region) != t.Normalize("") ==> db'.rows[id].complete)
  {
    hide NoticeStore.Inv, Identity, Revision, ValidSource, ContentOf, SourceError, SameText;
    var n := ReadBack(t, db.rows[id].payload).(region := region);
    NoticeStore.RowOf(t, db, id);
    RegionOnlyChangesRevision(t, ReadBack(t, db.rows[id].payload), region);
    RawOnlyChangesRevision(t, db.rows[id].payload, t.render(db.rows[id].payload.raw));
    NoticeStore.ValidHasNoError(t, n);
    NoticeStore.FoundRow(t, db, id, Identity(t, n));
    NoticeStore.EnrichedText(t, db, id, region);
    NoticeBatch.StoreHolds(t, db, n);
    NoticeBatch.RegionIsNoField(t, db.rows[id].payload, region, t.render(db.rows[id].payload.raw));
    NoticeStore.StoreKeepsInv(t, db, n);
    var db' := NoticeStore.Store(t, db, n).0;
    NoticeStore.RowOf(t, db', id);
    TextDeadline(t, db'.rows[id].payload, n);
  }

  lemma TextDeadline(t: Text, a: Notice, b: Notice)
    requires SameText(t, a, b)
    ensures a.deadline == b.deadline && t.Normalize(a.region) == t.Normalize(b.region)
  {
  }

  /** A row as it was, or with nothing but its missing region looked up. */
  ghost predicate Kept(t: Text, was: NoticeStore.Row, row: NoticeStore.Row) {
    || row == was
    || (was.payload.region == "" && !was.complete && row.identity == was.identity
        && NoticeBatch.FieldsOf(t, row.payload) == NoticeBatch.FieldsOf(t, was.payload))
  }

  /** The table has this notice, with the region it names. */
  ghost predicate Collected(t: Text, rows: map<Id, NoticeStore.Row>, n: Notice) {
    exists id :: CollectedIn(t, rows, id, n)
  }

  ghost predicate CollectedIn(t: Text, rows: map<Id, NoticeStore.Row>, id: Id, n: Notice) {
    && id in rows && rows[id].identity == Identity(t, n)
    && NoticeBatch.FieldsOf(t, rows[id].payload) == NoticeBatch.FieldsOf(t, n)
    && (t.Normalize(n.region) != t.Normalize("") ==> t.Normalize(rows[id].payload.region) == t.Normalize(n.region))
  }

  /** A row of an identity that was not fetched. */
  ghost predicate Unfetched(t: Text, fetched: seq<Notice>, row: NoticeStore.Row) {
    forall n <- fetched :: Identity(t, n) != row.identity
  }

  /** What the table is after a run, given what was fetched. */
  ghost predicate Accounted(t: Text, fetched: seq<Notice>, before: map<Id, NoticeStore.Row>,
                            rows: map<Id, NoticeStore.Row>) {
    && (forall j :: NoticeBatch.IsLast(t, fetched, j) ==> Collected(t, rows, fetched[j]))
    && (forall id <- before :: id in rows && rows[id].identity == before[id].identity
          && (Unfetched(t, fetched, before[id]) ==> Kept(t, before[id], rows[id])))
    && (forall id <- rows :: id in before || !Unfetched(t, fetched, rows[id]))
  }

  /** Storing the fetched notices, and then enriching rows that have no region, accounts for them all. */
  lemma StoredIsAccounted(t: Text, db: NoticeStore.Db, fetched: seq<Notice>, rows: map<Id, NoticeStore.Row>)
    requires t.Collisionless() && NoticeStore.Inv(t, db) && forall n <- fetched :: ValidSource(t, n)
    requires var stored := NoticeBatch.StoreAll(t, db, fetched).rows;
      rows.Keys == stored.Keys && forall id <- stored :: Kept(t, stored[id], rows[id])
    ensures Accounted(t, fetched, db.rows, rows)
  {
    hide NoticeStore.Inv, ValidSource, Identity, NoticeBatch.StoreAll, NoticeBatch.FieldsOf;
    var stored := NoticeBatch.StoreAll(t, db, fetched).rows;
    forall j | NoticeBatch.IsLast(t, fetched, j) ensures Collected(t, rows, fetched[j]) {
      var id := NoticeBatch.LastIsHeld(t, db, fetched, j);
      assert Kept(t, stored[id], rows[id]);
      assert CollectedIn(t, rows, id, fetched[j]);
    }
    forall id | id in db.rows
      ensures id in rows && rows[id].identity == db.rows[id].identity
        && (Unfetched(t, fetched, db.rows[id]) ==> Kept(t, db.rows[id], rows[id]))
    {
      NoticeBatch.OthersStay(t, db, fetched, id);
    }
    forall id | id in rows ensures id in db.rows || !Unfetched(t, fetched, rows[id]) {
      NoticeBatch.NoOtherRows(t, db, fetched, id);
      assert Kept(t, stored[id], rows[id]);
    }
  }

  /** The raw item is not matched on. */
  lemma ReadBackText(t: Text, n: Notice)
    ensures SameText(t, n, ReadBack(t, n)) && ReadBack(t, n).region == n.region
  {
  }

  class Collector {
    const t: Text
    const notices: NoticeStore.Database
    const index: MatchDatabase.Database
    var lastSuccess: Option<Time>

    ghost predicate Valid()
      reads this, notices, index
    {
      notices.t == t && index.t == t && notices.Valid() && index.Valid()
    }

    constructor (notices: NoticeStore.Database, index: MatchDatabase.Database)
      requires notices.t == index.t && notices.Valid() && index.Valid()
      ensures this.notices == notices && this.index == index && Valid() && lastSuccess == None
    {
      this.t, this.notices, this.index := notices.t, notices, index;
      lastSuccess := None;
    }

    /** Store the notices of one category, up to the first invalid one. */
    method StoreBatch(batch: Batch, before: CollectionResult) returns (result: CollectionResult, ok: bool)
      requires Valid() && before.changed <= before.fetched
      modifies notices
      ensures Valid() && result.changed <= result.fetched && result.matched == before.matched
      ensures ok ==> result.fetched == before.fetched + |batch.notices|
      ensures result.warnings == before.warnings + batch.warnings
      ensures ok <==> forall n <- batch.notices :: ValidSource(t, n)
      ensures notices.State() ==
        NoticeBatch.StoreAll(t, old(notices.State()), NoticeBatch.ValidPrefix(t, batch.notices))
      ensures ok ==> NoticeBatch.ValidPrefix(t, batch.notices) == batch.notices
      ensures ok ==> result.changed == before.changed + NoticeBatch.Rewrites(t, old(notices.State()), batch.notices)
    {
      hide NoticeStore.Inv, ValidSource, NoticeStore.Store;
      result := before.(warnings := before.warnings + batch.warnings);
      for j := 0 to |batch.notices|
        invariant Valid() && result.fetched == before.fetched + j
        invariant result.warnings == before.warnings + batch.warnings
        invariant result.changed <= result.fetched && result.matched == before.matched
        invariant forall k :: 0 <= k < j ==> ValidSource(t, batch.notices[k])
        invariant notices.State() == NoticeBatch.StoreAll(t, old(notices.State()), batch.notices[..j])
        invariant result.changed ==
          before.changed + NoticeBatch.Rewrites(t, old(notices.State()), batch.notices[..j])
      {
        result := result.(fetched := result.fetched + 1);
        assert batch.notices[..j + 1][..j] == batch.notices[..j];
        NoticeStore.StoreKeepsInv(t, notices.State(), batch.notices[j]);
        if ValidSource(t, batch.notices[j]) {
          NoticeBatch.ChangedMeansRows(t, notices.State(), batch.notices[j]);
        } else {
          NoticeBatch.ValidPrefixIs(t, batch.notices, j);
          NoticeStore.StoreFinds(t, notices.State(), batch.notices[j]);
        }
        var stored := notices.StoreNotice(batch.notices[j]);
        if stored.Failed? {
          return result, false;
        }
        if stored.changed {
          result := result.(changed := result.changed + 1);
        }
      }
      assert batch.notices[..|batch.notices|] == batch.notices;
      NoticeBatch.ValidPrefixIs(t, batch.notices, |batch.notices|);
      return result, true;
    }

    ghost predicate Storable(batch: Option<Batch>) {
      batch.Some? && forall n <- batch.value.notices :: ValidSource(t, n)
    }

    /** Store what the source returned, category by category; a source error or an invalid notice ends it. */
    method StoreBatches(batches: seq<Option<Batch>>) returns (result: CollectionResult, ok: bool)
      requires Valid()
      modifies notices
      ensures Valid()
      ensures ok ==> result.fetched == Fetched(batches) && result.changed <= result.fetched && result.matched == 0
      ensures ok <==> forall batch <- batches :: Storable(batch)
      ensures notices.State() ==
        NoticeBatch.StoreAll(t, old(notices.State()), NoticeBatch.ValidPrefix(t, Delivered(batches)))
      ensures ok ==> NoticeBatch.ValidPrefix(t, Delivered(batches)) == Delivered(batches)
      ensures ok ==> result.changed == NoticeBatch.Rewrites(t, old(notices.State()), Delivered(batches))
      ensures ok ==> result.warnings == Warned(batches)
    {
      hide NoticeStore.Inv, ValidSource, NoticeStore.Store, NoticeBatch.StoreAll, NoticeBatch.Rewrites;
      hide NoticeBatch.ValidPrefix;
      result := CollectionResult(0, 0, 0, 0);
      ghost var db, taken: seq<Notice> := notices.State(), [];
      NothingStored(db);
      for i := 0 to |batches|
        invariant Valid() && result.fetched == Fetched(batches[..i])
          && result.changed <= result.fetched && result.matched == 0
        invariant forall k :: 0 <= k < i ==> Storable(batches[k])
        invariant Delivered(batches) == taken + Delivered(batches[i..]) && NoticeBatch.ValidPrefix(t, taken) == taken
        invariant notices.State() == NoticeBatch.StoreAll(t, db, taken)
        invariant result.changed == NoticeBatch.Rewrites(t, db, taken) && result.warnings == Warned(batches[..i])
      {
        assert batches[..i + 1][..i] == batches[..i] && batches[i] in batches;
        NextDelivered(batches, i, taken);
        if batches[i].None? {
          return result, false;
        }
        ghost var more := batches[i].value.notices;
        NoticeBatch.ValidPrefixOfSum(t, taken, more);
        NoticeBatch.ValidPrefixOfSum(t, taken + more, Delivered(batches[i + 1..]));
        NoticeBatch.StoreAllOfSum(t, db, taken, NoticeBatch.ValidPrefix(t, more));
        var stored;
        result, stored := StoreBatch(batches[i].value, result);
        if !stored {
          assert !Storable(batches[i]);
          ShorterPrefix(more);
          return result, false;
        }
        taken := taken + more;
      }
      assert batches[..|batches|] == batches && batches[|batches|..] == [] && taken + [] == taken;
      return result, true;
    }

    lemma NothingStored(db: NoticeStore.Db)
      ensures NoticeBatch.StoreAll(t, db, []) == db && NoticeBatch.Rewrites(t, db, []) == 0
      ensures NoticeBatch.ValidPrefix(t, []) == []
    {
    }

    lemma NextDelivered(batches: seq<Option<Batch>>, i: nat, taken: seq<Notice>)
      requires i < |batches| && Delivered(batches) == taken + Delivered(batches[i..])
      ensures batches[i].None? ==> Delivered(batches) == taken
      ensures batches[i].Some? ==> Delivered(batches) == taken + batches[i].value.notices + Delivered(batches[i + 1..])
    {
      assert batches[i..][1..] == batches[i + 1..];
    }

    lemma ShorterPrefix(ns: seq<Notice>)
      requires exists n <- ns :: !ValidSource(t, n)
      ensures NoticeBatch.ValidPrefix(t, ns) != ns
    {
    }

    /** The notices whose deadline has not passed, each once. */
    method ActiveNotices(now: Time) returns (active: seq<(Id, NoticeStore.Row)>)
      ensures forall i :: 0 <= i < |active| ==>
        active[i].0 in notices.rows && notices.rows[active[i].0] == active[i].1 && IsActive(active[i].1.payload, now)
      ensures forall i, j :: 0 <= i < j < |active| ==> active[i].0 != active[j].0
      ensures forall id <- notices.rows ::
        IsActive(notices.rows[id].payload, now) ==> exists i :: 0 <= i < |active| && active[i].0 == id
    {
      active := [];
      var rest := notices.rows.Keys;
      while rest != {}
        invariant rest <= notices.rows.Keys
        invariant forall i :: 0 <= i < |active| ==> active[i].0 !in rest
        invariant forall i :: 0 <= i < |active| ==>
          active[i].0 in notices.rows && notices.rows[active[i].0] == active[i].1 && IsActive(active[i].1.payload, now)
        invariant forall i, j :: 0 <= i < j < |active| ==> active[i].0 != active[j].0
        invariant forall id <- notices.rows :: id !in rest && IsActive(notices.rows[id].payload, now) ==>
          exists i :: 0 <= i < |active| && active[i].0 == id
        decreases rest
      {
        var id :| id in rest;
        if IsActive(notices.rows[id].payload, now) {
          ghost var before := active;
          active := active + [(id, notices.rows[id])];
          assert active[|before|].0 == id;
          assert forall i :: 0 <= i < |before| ==> active[i] == before[i];
        }
        rest := rest - {id};
      }
    }

    /** Look a missing region up, unless the lookup is complete or no longer possible. */
    method Enrich(id: Id, row: NoticeStore.Row, canLookup: bool, lookup: Lookup)
      returns (n: Notice, stillCan: bool, looked: bool, warned: bool, cancelled: bool)
      requires t.Collisionless() && Valid() && id in notices.rows && notices.rows[id] == row
      modifies notices
      ensures Valid() && notices.rows.Keys == old(notices.rows.Keys)
      ensures forall o <- old(notices.rows) :: o != id ==> notices.rows[o] == old(notices.rows[o])
      ensures SameText(t, notices.rows[id].payload, n) && notices.rows[id].payload.deadline == row.payload.deadline
      ensures looked == (row.payload.region == "" && !row.complete && canLookup)
      ensures stillCan == (canLookup && !(looked && lookup.LookupFailed? && lookup.budget))
      ensures cancelled == (looked && lookup.LookupFailed? && lookup.cancelled)
      ensures warned == (looked && lookup.LookupFailed? && !lookup.cancelled)
      ensures looked && lookup.Found? && (lookup.region == "" || t.Normalize(lookup.region) != t.Normalize("")) ==>
        notices.rows[id].complete
      ensures var region := if looked && lookup.Found? then lookup.region else row.payload.region;
        n == ReadBack(t, row.payload).(region := region)
      ensures Kept(t, row, notices.rows[id])
      ensures !looked || lookup.LookupFailed? ==> notices.rows[id] == row
      ensures looked && lookup == Found("") ==> notices.rows[id] == row.(complete := true)
    {
      hide NoticeStore.Inv, SourceError, NoticeBatch.FieldsOf;
      n, stillCan, warned, cancelled := ReadBack(t, row.payload), canLookup, false, false;
      ReadBackText(t, row.payload);
      looked := row.payload.region == "" && !row.complete && canLookup;
      if looked {
        match lookup
        case LookupFailed(budget, stopped) =>
          stillCan, cancelled, warned := !budget, stopped, !stopped;
        case Found(region) =>
          if region == "" {
            var ok := notices.MarkRegionLookupComplete(id);
          } else {
            n := n.(region := region);
            EnrichmentStaysInItsRow(t, notices.State(), id, region);
            var stored := notices.StoreNotice(n);
          }
      }
    }

    /** Evaluate one notice against every filter, counting the rows this creates. */
    method MatchNotice(filters: seq<Index.StoredFilter>, now: Time, id: Id, n: Notice) returns (created: nat)
      requires index.t == t && MatchDatabase.DistinctFilters(filters)
      modifies index`matches
      ensures index.State() == WriteAll(t, old(index.State()), filters, now, id, n)
      ensures created == |index.matches.Keys - old(index.matches.Keys)|
      ensures forall k <- index.matches :: k in old(index.matches) || k.1 == id
      ensures forall k <- old(index.matches) :: k in index.matches || k.1 == id
    {
      hide MatchAt, Index.Write, WriteAll, Counted, MatchDatabase.DistinctFilters;
      created := 0;
      ghost var were := index.matches.Keys;
      WriteAllStart(t, index.State(), filters, now, id, n);
      CountedStart(were, filters, id);
      for i := 0 to |filters|
        invariant index.State() == WriteAll(t, old(index.State()), filters[..i], now, id, n)
        invariant Counted(were, index.matches.Keys, filters[..i], id, created)
      {
        WriteAllNext(t, old(index.State()), filters, i, now, id, n);
        ghost var seen := index.matches.Keys;
        WriteKeys(t, index.State(), filters[i], now, id, n);
        var isNew := index.Apply(filters[i], now, id, n);
        CountedNext(were, seen, index.matches.Keys, filters, i, id, created);
        if isNew {
          created := created + 1;
        }
      }
      assert filters[..|filters|] == filters;
      CountedEnd(were, index.matches.Keys, filters, id, created);
    }

    /** After these filters: so many rows are new, and only rows of these filters and this notice changed presence. */
    ghost predicate Counted(were: set<(Id, Id)>, keys: set<(Id, Id)>, filters: seq<Index.StoredFilter>, id: Id,
                            created: nat) {
      && created == |keys - were|
      && (forall k :: (k in keys <==> k in were) || (k.1 == id && HasFilter(filters, k.0)))
    }

    lemma CountedStart(were: set<(Id, Id)>, filters: seq<Index.StoredFilter>, id: Id)
      ensures Counted(were, were, filters[..0], id, 0)
    {
      assert were - were == {};
    }

    lemma CountedEnd(were: set<(Id, Id)>, keys: set<(Id, Id)>, filters: seq<Index.StoredFilter>, id: Id, created: nat)
      requires Counted(were, keys, filters, id, created)
      ensures created == |keys - were| && forall k <- keys :: k in were || k.1 == id
      ensures forall k <- were :: k in keys || k.1 == id
    {
    }

    lemma CountedNext(were: set<(Id, Id)>, seen: set<(Id, Id)>, keys: set<(Id, Id)>, filters: seq<Index.StoredFilter>,
                      i: nat, id: Id, created: nat)
      requires i < |filters| && MatchDatabase.DistinctFilters(filters) && Counted(were, seen, filters[..i], id, created)
      requires forall o :: o != (filters[i].id, id) ==> (o in keys <==> o in seen)
      ensures var k := (filters[i].id, id);
        Counted(were, keys, filters[..i + 1], id, created + if k in keys && k !in seen then 1 else 0)
    {
      hide HasFilter;
      var k := (filters[i].id, id);
      FiltersNext(filters, i);
      CountGrown(were, seen, keys, k);
      forall o ensures (o in keys <==> o in were) || (o.1 == id && HasFilter(filters[..i + 1], o.0)) {
        assert (o in seen <==> o in were) || (o.1 == id && HasFilter(filters[..i], o.0));
      }
    }

    lemma FiltersNext(filters: seq<Index.StoredFilter>, i: nat)
      requires i < |filters| && MatchDatabase.DistinctFilters(filters)
      ensures !HasFilter(filters[..i], filters[i].id) && HasFilter(filters[..i + 1], filters[i].id)
      ensures forall f :: HasFilter(filters[..i], f) ==> HasFilter(filters[..i + 1], f)
    {
      assert filters[i] in filters[..i + 1];
      assert forall sf <- filters[..i] :: sf in filters[..i + 1];
    }

    lemma WriteAllStart(t: Text, db: Index.Db, filters: seq<Index.StoredFilter>, now: Time, id: Id, n: Notice)
      ensures WriteAll(t, db, filters[..0], now, id, n) == db
    {
    }

    lemma WriteAllNext(t: Text, db: Index.Db, filters: seq<Index.StoredFilter>, i: nat, now: Time, id: Id, n: Notice)
      requires i < |filters|
      ensures WriteAll(t, db, filters[..i + 1], now, id, n) ==
        Index.Write(t, WriteAll(t, db, filters[..i], now, id, n), filters[i], now, id, n)
    {
      hide MatchAt, Index.Write;
      assert filters[..i + 1][..i] == filters[..i];
    }

    lemma CountGrown(were: set<(Id, Id)>, seen: set<(Id, Id)>, keys: set<(Id, Id)>, k: (Id, Id))
      requires forall o :: o != k ==> (o in keys <==> o in seen)
      requires k in seen <==> k in were
      ensures |keys - were| == |seen - were| + if k in keys && k !in seen then 1 else 0
    {
      if k in keys && k !in were {
        assert keys - were == (seen - were) + {k};
      } else {
        assert keys - were == seen - were;
      }
    }

    /** A write changes the presence of its own key only. */
    lemma WriteKeys(t: Text, db: Index.Db, sf: Index.StoredFilter, now: Time, id: Id, n: Notice)
      ensures var db' := Index.Write(t, db, sf, now, id, n);
        forall k :: k != (sf.id, id) ==> (k in db'.matches <==> k in db.matches)
    {
      hide MatchAt;
    }

    /** The active notices before position i are settled, and nothing else has changed. */
    ghost predicate Settled(before: Index.Db, db: Index.Db, rows: map<Id, NoticeStore.Row>,
                            active: seq<(Id, NoticeStore.Row)>, i: nat,
                            filters: seq<Index.StoredFilter>, now: Time)
      requires i <= |active|
    {
      && db.filters == before.filters && db.read == before.read
      && (forall j :: 0 <= j < |active| ==> SettledAt(db, rows, active[j], j < i, filters, now))
      && (forall k: (Id, Id) ::
        !Reached(active[..i], k.1) || !HasFilter(filters, k.0) ==> Index.SameMatch(before, db, k))
    }

    ghost predicate SettledAt(db: Index.Db, rows: map<Id, NoticeStore.Row>, entry: (Id, NoticeStore.Row), done: bool,
                              filters: seq<Index.StoredFilter>, now: Time)
    {
      && entry.0 in rows && rows[entry.0].payload.deadline == entry.1.payload.deadline
      && (if done then Indexed(t, db, filters, now, entry.0, rows[entry.0].payload) else rows[entry.0] == entry.1)
    }

    ghost predicate Reached(active: seq<(Id, NoticeStore.Row)>, id: Id) {
      exists entry <- active :: entry.0 == id
    }

    ghost predicate DistinctNotices(active: seq<(Id, NoticeStore.Row)>) {
      forall i, j :: 0 <= i < j < |active| ==> active[i].0 != active[j].0
    }

    /** One more notice: enriched in its own row, then written for every filter. */
    lemma SettledNext(before: Index.Db, db: Index.Db, rows: map<Id, NoticeStore.Row>, rows': map<Id, NoticeStore.Row>,
                      active: seq<(Id, NoticeStore.Row)>, i: nat, filters: seq<Index.StoredFilter>, now: Time,
                      n: Notice)
      requires i < |active| && DistinctNotices(active) && Settled(before, db, rows, active, i, filters, now)
      requires MatchDatabase.DistinctFilters(filters) && AllEligible(before, filters)
      requires rows'.Keys == rows.Keys && forall o <- rows :: o != active[i].0 ==> rows'[o] == rows[o]
      requires active[i].0 in rows' && SameText(t, rows'[active[i].0].payload, n)
      requires rows'[active[i].0].payload.deadline == active[i].1.payload.deadline
      ensures Settled(before, WriteAll(t, db, filters, now, active[i].0, n), rows', active, i + 1, filters, now)
    {
      hide SameText, Indexed, WriteAll, HasFilter, Reached;
      var id := active[i].0;
      var db' := WriteAll(t, db, filters, now, id, n);
      WriteAllIsExact(t, db, filters, now, id, n);
      TextSymmetric(t, rows'[id].payload, n);
      SameTextIndexed(t, db', filters, now, id, n, rows'[id].payload);
      forall j | 0 <= j < |active|
        ensures SettledAt(db', rows', active[j], j < i + 1, filters, now)
      {
        assert SettledAt(db, rows, active[j], j < i, filters, now);
        if j < i {
          IndexedElsewhere(db, db', filters, now, active[j].0, rows[active[j].0].payload, id);
        }
      }
      forall k: (Id, Id) | !Reached(active[..i + 1], k.1) || !HasFilter(filters, k.0)
        ensures Index.SameMatch(before, db', k)
      {
        ReachedNext(active, i, k.1);
        assert Index.SameMatch(before, db, k);
      }
    }

    lemma TextSymmetric(t: Text, a: Notice, b: Notice)
      requires SameText(t, a, b)
      ensures SameText(t, b, a)
    {
    }

    lemma ReachedNext(active: seq<(Id, NoticeStore.Row)>, i: nat, id: Id)
      requires i < |active|
      ensures Reached(active[..i + 1], id) <==> Reached(active[..i], id) || active[i].0 == id
    {
      assert active[..i + 1] == active[..i] + [active[i]];
    }

    lemma IndexedElsewhere(db: Index.Db, db': Index.Db, filters: seq<Index.StoredFilter>, now: Time, id: Id, n: Notice,
                           other: Id)
      requires Indexed(t, db, filters, now, id, n) && id != other
      requires forall k: (Id, Id) :: k.1 != other || !HasFilter(filters, k.0) ==> Index.SameMatch(db, db', k)
      ensures Indexed(t, db', filters, now, id, n)
    {
      hide Accepts, HasFilter;
      forall j | 0 <= j < |filters| ensures IndexedFor(t, db', filters[j], now, id, n) {
        assert IndexedFor(t, db, filters[j], now, id, n);
        assert Index.SameMatch(db, db', (filters[j].id, id));
      }
    }

    lemma {:induction false} WriteAllKeepsInv(t: Text, db: Index.Db, filters: seq<Index.StoredFilter>, now: Time,
                                              id: Id, n: Notice)
      requires Index.Inv(t, db) && forall sf <- filters :: sf in db.read
      ensures var db' := WriteAll(t, db, filters, now, id, n); Index.Inv(t, db') && db'.read == db.read
      decreases |filters|
    {
      if filters != [] {
        hide MatchAt, Index.Inv;
        var last := |filters| - 1;
        assert filters[last] in filters;
        WriteAllKeepsInv(t, db, filters[..last], now, id, n);
        var before := WriteAll(t, db, filters[..last], now, id, n);
        Index.StepKeepsInv(t, before, Index.DoWrite(filters[last], now, id, n));
      }
    }

    /** Rows that one notice adds come on top of those that earlier notices added. */
    lemma NewRowsAddUp(were: set<(Id, Id)>, seen: set<(Id, Id)>, keys: set<(Id, Id)>, id: Id)
      requires forall k: (Id, Id) :: k.1 == id ==> (k in seen <==> k in were)
      requires forall k <- keys :: k in seen || k.1 == id
      requires forall k <- seen :: k in keys || k.1 == id
      ensures |keys - were| == |seen - were| + |keys - seen|
    {
      assert keys - were == (seen - were) + (keys - seen);
    }

    /** Only rows of active notices have changed, and those in nothing but a missing region. */
    ghost predicate KeptRows(were: map<Id, NoticeStore.Row>, rows: map<Id, NoticeStore.Row>,
                             active: seq<(Id, NoticeStore.Row)>) {
      && rows.Keys == were.Keys
      && (forall id <- were :: Kept(t, were[id], rows[id]) && (Reached(active, id) || rows[id] == were[id]))
    }

    /** The rows before a loop over the active notices, and at position i of it. */
    ghost predicate RowsAt(were: map<Id, NoticeStore.Row>, rows: map<Id, NoticeStore.Row>,
                           active: seq<(Id, NoticeStore.Row)>, i: nat) {
      && KeptRows(were, rows, active)
      && (forall j :: i <= j < |active| ==> active[j].0 in rows && rows[active[j].0] == active[j].1)
    }

    lemma RowsNext(were: map<Id, NoticeStore.Row>, rows: map<Id, NoticeStore.Row>, rows': map<Id, NoticeStore.Row>,
                   active: seq<(Id, NoticeStore.Row)>, i: nat)
      requires i < |active| && DistinctNotices(active) && RowsAt(were, rows, active, i)
      requires active[i].0 in were && were[active[i].0] == active[i].1
      requires rows'.Keys == rows.Keys && Kept(t, active[i].1, rows'[active[i].0])
      requires forall id <- rows :: id != active[i].0 ==> rows'[id] == rows[id]
      ensures RowsAt(were, rows', active, i + 1)
    {
      hide Kept, Reached;
      ReachedAll(active, i);
    }

    /** The rows that the index has gained. */
    function Gained(before: Index.Db, db: Index.Db): nat {
      |db.matches.Keys - before.matches.Keys|
    }

    lemma NothingGained(db: Index.Db)
      ensures Gained(db, db) == 0
    {
      assert db.matches.Keys - db.matches.Keys == {};
    }

    /** Enrich and match the notice at position i; `before` is the index when the loop began. */
    method MatchOne(filters: seq<Index.StoredFilter>, active: seq<(Id, NoticeStore.Row)>, i: nat, now: Time,
                    canLookup: bool, lookup: Lookup, ghost before: Index.Db, ghost were: map<Id, NoticeStore.Row>)
      returns (stillCan: bool, looked: bool, warned: bool, cancelled: bool, created: nat)
      requires t.Collisionless() && Valid() && i < |active| && DistinctNotices(active)
      requires MatchDatabase.DistinctFilters(filters) && AllEligible(before, filters)
      requires forall sf <- filters :: sf in index.read
      requires Settled(before, index.State(), notices.rows, active, i, filters, now)
      requires RowsAt(were, notices.rows, active, i)
      requires active[i].0 in were && were[active[i].0] == active[i].1
      modifies notices, index`matches
      ensures Valid() && RowsAt(were, notices.rows, active, i + 1)
      ensures !cancelled ==> Settled(before, index.State(), notices.rows, active, i + 1, filters, now)
      ensures !cancelled ==> Gained(before, index.State()) == Gained(before, old(index.State())) + created
      ensures stillCan == (canLookup && !(looked && lookup.LookupFailed? && lookup.budget)) && (looked ==> canLookup)
      ensures cancelled == (looked && lookup.LookupFailed? && lookup.cancelled)
      ensures warned == (looked && lookup.LookupFailed? && !lookup.cancelled)
    {
      hide NoticeStore.Inv, Index.Inv, MatchAt, SettledAt, Indexed, SameText, WriteAll, Reached, HasFilter, Settled;
      hide RowsAt, Kept, AllEligible, MatchDatabase.DistinctFilters;
      var id := active[i].0;
      created := 0;
      ghost var rows, seen, db := notices.rows, index.matches.Keys, index.State();
      Unsettled(before, db, rows, active, i, filters, now);
      UntouchedRows(before, db, active, i, filters, now, rows);
      var n;
      n, stillCan, looked, warned, cancelled := Enrich(id, active[i].1, canLookup, lookup);
      RowsNext(were, rows, notices.rows, active, i);
      if cancelled {
        return;
      }
      WriteAllKeepsInv(t, db, filters, now, id, n);
      created := MatchNotice(filters, now, id, n);
      SettledNext(before, db, rows, notices.rows, active, i, filters, now, n);
      NewRowsAddUp(before.matches.Keys, seen, index.matches.Keys, id);
    }

    predicate EndsLookups(lookup: Lookup) {
      lookup.LookupFailed? && (lookup.budget || lookup.cancelled)
    }

    /** Only the last lookup may have ended the lookups of the run. */
    ghost predicate Quiet(asked: seq<Lookup>) {
      forall answer <- asked :: !EndsLookups(answer)
    }

    ghost predicate QuietButLast(asked: seq<Lookup>) {
      asked == [] || Quiet(asked[..|asked| - 1])
    }

    lemma QuietNext(asked: seq<Lookup>, answer: Lookup)
      requires Quiet(asked)
      ensures QuietButLast(asked + [answer])
      ensures !EndsLookups(answer) ==> Quiet(asked + [answer])
    {
      assert (asked + [answer])[..|asked|] == asked;
    }

    /** The lookups asked so far: the answers in their order, after which more may be asked only if none ended them. */
    ghost predicate Asked(asked: seq<Lookup>, answers: seq<Lookup>, able: bool, more: bool) {
      asked <= answers && QuietButLast(asked) && (more ==> able && Quiet(asked)) && (able || asked == [])
    }

    lemma AskedNext(asked: seq<Lookup>, asked': seq<Lookup>, answers: seq<Lookup>, able: bool, more: bool, looked: bool,
                    more': bool)
      requires Asked(asked, answers, able, more) && (looked ==> more) && |asked| < |answers|
      requires asked' == if looked then asked + [answers[|asked|]] else asked
      requires var answer := answers[|asked|]; more' == (more && !(looked && answer.LookupFailed? && answer.budget))
      ensures Asked(asked', answers, able, false)
      ensures var answer := answers[|asked|];
        !(looked && answer.LookupFailed? && answer.cancelled) ==> Asked(asked', answers, able, more')
      ensures Failures(asked') == Failures(asked) + if looked && answers[|asked|].LookupFailed? then 1 else 0
    {
      var answer := answers[|asked|];
      if more {
        QuietNext(asked, answer);
      }
      assert (asked + [answer])[..|asked|] == asked;
    }

    /** All active notices; no lookup follows one that exhausted the budget or found the context cancelled. */
    method MatchActive(filters: seq<Index.StoredFilter>, active: seq<(Id, NoticeStore.Row)>, now: Time, able: bool,
                       answers: seq<Lookup>, stored: CollectionResult)
      returns (result: CollectionResult, ok: bool, asked: seq<Lookup>)
      requires t.Collisionless() && Valid() && DistinctNotices(active) && |answers| == |active|
      requires MatchDatabase.DistinctFilters(filters) && AllEligible(index.State(), filters)
      requires forall sf <- filters :: sf in index.read
      requires forall i :: 0 <= i < |active| ==> active[i].0 in notices.rows && notices.rows[active[i].0] == active[i].1
      modifies notices, index`matches
      ensures Valid() && KeptRows(old(notices.rows), notices.rows, active)
      ensures ok ==> Settled(old(index.State()), index.State(), notices.rows, active, |active|, filters, now)
      ensures ok ==> result.matched == stored.matched + Gained(old(index.State()), index.State())
      ensures result.fetched == stored.fetched && result.changed == stored.changed
      ensures Asked(asked, answers, able, false)
      ensures ok ==> result.warnings == stored.warnings + Failures(asked)
    {
      hide NoticeStore.Inv, Index.Inv, Settled, Asked, RowsAt, KeptRows, Failures, Kept, DistinctNotices;
      hide AllEligible, MatchDatabase.DistinctFilters, Gained;
      result, asked := stored, [];
      var canLookup := able && |filters| > 0;
      ghost var before, were := index.State(), notices.rows;
      NothingGained(before);
      SettledStart(before, notices.rows, active, filters, now);
      RowsStart(were, active);
      AskedStart(answers, able, canLookup);
      for i := 0 to |active|
        invariant Valid() && RowsAt(were, notices.rows, active, i)
        invariant Settled(before, index.State(), notices.rows, active, i, filters, now)
        invariant result.matched == stored.matched + Gained(before, index.State())
        invariant result.fetched == stored.fetched && result.changed == stored.changed
        invariant result.warnings == stored.warnings + Failures(asked)
        invariant |asked| <= i && Asked(asked, answers, able, canLookup)
      {
        var looked, warned, cancelled, created;
        var answer, could := answers[|asked|], canLookup;
        canLookup, looked, warned, cancelled, created :=
          MatchOne(filters, active, i, now, canLookup, answer, before, were);
        ghost var earlier := asked;
        if looked {
          asked := asked + [answer];
        }
        AskedNext(earlier, asked, answers, able, could, looked, canLookup);
        if cancelled {
          RowsMean(were, notices.rows, active, i + 1);
          return result, false, asked;
        }
        result := result.(warnings := result.warnings + if warned then 1 else 0, matched := result.matched + created);
      }
      RowsMean(were, notices.rows, active, |active|);
      NoMoreAsked(asked, answers, able, canLookup);
      ok := true;
    }

    lemma RowsStart(rows: map<Id, NoticeStore.Row>, active: seq<(Id, NoticeStore.Row)>)
      requires forall i :: 0 <= i < |active| ==> active[i].0 in rows && rows[active[i].0] == active[i].1
      ensures RowsAt(rows, rows, active, 0)
    {
    }

    lemma RowsMean(were: map<Id, NoticeStore.Row>, rows: map<Id, NoticeStore.Row>,
                   active: seq<(Id, NoticeStore.Row)>, i: nat)
      requires RowsAt(were, rows, active, i)
      ensures KeptRows(were, rows, active)
    {
    }

    lemma AskedStart(answers: seq<Lookup>, able: bool, more: bool)
      requires more ==> able
      ensures Asked([], answers, able, more) && Failures([]) == 0
    {
    }

    lemma NoMoreAsked(asked: seq<Lookup>, answers: seq<Lookup>, able: bool, more: bool)
      requires Asked(asked, answers, able, more)
      ensures Asked(asked, answers, able, false)
    {
    }

    lemma SettledStart(db: Index.Db, rows: map<Id, NoticeStore.Row>, active: seq<(Id, NoticeStore.Row)>,
                       filters: seq<Index.StoredFilter>, now: Time)
      requires forall i :: 0 <= i < |active| ==> active[i].0 in rows && rows[active[i].0] == active[i].1
      ensures Settled(db, db, rows, active, 0, filters, now)
    {
    }

    lemma Unsettled(before: Index.Db, db: Index.Db, rows: map<Id, NoticeStore.Row>, active: seq<(Id, NoticeStore.Row)>,
                    i: nat, filters: seq<Index.StoredFilter>, now: Time)
      requires i < |active| && Settled(before, db, rows, active, i, filters, now)
      ensures active[i].0 in rows && rows[active[i].0] == active[i].1
    {
      assert SettledAt(db, rows, active[i], false, filters, now);
    }

    /** A notice that has not been reached has its old rows. */
    lemma UntouchedRows(before: Index.Db, db: Index.Db, active: seq<(Id, NoticeStore.Row)>, i: nat,
                        filters: seq<Index.StoredFilter>, now: Time, rows: map<Id, NoticeStore.Row>)
      requires i < |active| && DistinctNotices(active) && Settled(before, db, rows, active, i, filters, now)
      ensures forall k: (Id, Id) :: k.1 == active[i].0 ==> (k in db.matches <==> k in before.matches)
    {
      assert !Reached(active[..i], active[i].0);
      forall k: (Id, Id) | k.1 == active[i].0 ensures k in db.matches <==> k in before.matches {
        assert Index.SameMatch(before, db, k);
      }
    }

    lemma ReachedAll(active: seq<(Id, NoticeStore.Row)>, i: nat)
      requires i < |active|
      ensures Reached(active[..i + 1], active[i].0) && Reached(active, active[i].0)
      ensures forall id :: Reached(active[..i], id) ==> Reached(active[..i + 1], id) && Reached(active, id)
    {
      assert active[..i + 1] == active[..i] + [active[i]];
      assert active == active[..i] + active[i..];
    }

    /** The pairs a run is about: an enabled filter and an active notice. */
    predicate Concerned(filters: map<Id, Index.Filter>, rows: map<Id, NoticeStore.Row>, k: (Id, Id), now: Time) {
      k.0 in filters && filters[k.0].enabled && k.1 in rows && IsActive(rows[k.1].payload, now)
    }

    /** The index has this pair's row exactly when the matcher accepts the stored notice, as it is read. */
    ghost predicate Agrees(db: Index.Db, rows: map<Id, NoticeStore.Row>, sf: Index.StoredFilter, id: Id, now: Time)
      requires id in rows
    {
      (sf.id, id) in db.matches <==> Accepts(t, now, ReadBack(t, rows[id].payload), sf.rule)
    }

    /** Fetch the four categories since shortly before the checkpoint and store what they bring. */
    method FetchAndStore(now: Time, source: (string, Time, Time) -> Option<Batch>)
      returns (result: CollectionResult, ok: bool)
      requires Valid()
      modifies notices
      ensures Valid()
      ensures var batches := Batches(source, FetchFrom(lastSuccess, now), now);
        && (ok <==> forall batch <- batches :: Storable(batch))
        && (ok ==> result.fetched == Fetched(batches) && result.changed <= result.fetched && result.matched == 0)
        && notices.State() ==
             NoticeBatch.StoreAll(t, old(notices.State()), NoticeBatch.ValidPrefix(t, Delivered(batches)))
        && (ok ==> NoticeBatch.ValidPrefix(t, Delivered(batches)) == Delivered(batches))
        && (ok ==> result.changed == NoticeBatch.Rewrites(t, old(notices.State()), Delivered(batches)))
        && (ok ==> result.warnings == Warned(batches))
    {
      hide NoticeStore.Inv, Index.Inv, Storable, Fetched, Warned, Batches, NoticeBatch.StoreAll, NoticeBatch.Rewrites;
      hide NoticeBatch.ValidPrefix;
      var start := now - 7 * DAY;
      if lastSuccess.Some? {
        start := lastSuccess.value - 10 * MINUTE;
      }
      result, ok := StoreBatches(Batches(source, start, now));
    }

    /**
     The whole run. It fetches from ten minutes before the last success, or the last seven days. When
     it succeeds, the index agrees with the matcher about every active stored notice and every enabled
     filter, no other row has changed, and the checkpoint is this run's time; otherwise the checkpoint
     stays.
     */
    method Run(now: Time, source: (string, Time, Time) -> Option<Batch>, able: bool, lookup: nat -> Lookup)
      returns (result: CollectionResult, ok: bool, ghost asked: seq<Lookup>)
      requires t.Collisionless() && Valid()
      modifies this`lastSuccess, notices, index`matches, index`read
      ensures Valid()
      ensures lastSuccess == if ok then Some(now) else old(lastSuccess)
      ensures ok ==> forall sf <- Index.Enabled(index.State()), id <- notices.rows ::
        IsActive(notices.rows[id].payload, now) ==> Agrees(index.State(), notices.rows, sf, id, now)
      ensures ok ==> forall k: (Id, Id) :: !Concerned(index.filters, notices.rows, k, now) ==>
        Index.SameMatch(old(index.State()), index.State(), k)
      ensures ok ==> result.fetched == Fetched(Batches(source, FetchFrom(old(lastSuccess), now), now))
      ensures ok ==> forall batch <- Batches(source, FetchFrom(old(lastSuccess), now), now) :: Storable(batch)
      ensures ok ==> var fetched := Delivered(Batches(source, FetchFrom(old(lastSuccess), now), now));
        && Accounted(t, fetched, old(notices.rows), notices.rows)
        && result.changed == NoticeBatch.Rewrites(t, old(notices.State()), fetched) <= result.fetched
      ensures ok ==> result.matched == |index.matches.Keys - old(index.matches.Keys)|
      ensures QuietButLast(asked) && (able || asked == []) && forall k :: 0 <= k < |asked| ==> asked[k] == lookup(k)
      ensures ok ==>
        result.warnings == Warned(Batches(source, FetchFrom(old(lastSuccess), now), now)) + Failures(asked)
    {
      hide NoticeStore.Inv, Index.Inv, MatchAt, Accepts, WriteAll, Settled, Storable, Agrees, Batches, Fetched;
      hide Warned, Failures;
      asked := [];
      hide Accounted, Kept, Delivered, NoticeBatch.StoreAll, NoticeBatch.Rewrites;
      ghost var were := notices.State();
      ghost var fetched := Delivered(Batches(source, FetchFrom(lastSuccess, now), now));
      var filters := index.EnabledFilters();
      ghost var before := index.State();
      result, ok := FetchAndStore(now, source);
      if !ok {
        return;
      }
      var active := ActiveNotices(now);
      ghost var loaded := notices.rows;
      assert AllEligible(before, filters);
      var answers, given := seq(|active|, k requires 0 <= k => lookup(k)), [];
      result, ok, given := MatchActive(filters, active, now, able, answers, result);
      asked := given;
      if !ok {
        return;
      }
      lastSuccess := Some(now);
      StoredIsAccounted(t, were, fetched, notices.rows);
      SettledMeans(before, index.State(), loaded, notices.rows, active, filters, now);
    }

    lemma SettledMeans(before: Index.Db, db: Index.Db, loaded: map<Id, NoticeStore.Row>, rows: map<Id, NoticeStore.Row>,
                       active: seq<(Id, NoticeStore.Row)>, filters: seq<Index.StoredFilter>, now: Time)
      requires Settled(before, db, rows, active, |active|, filters, now) && rows.Keys == loaded.Keys
      requires forall i :: 0 <= i < |active| ==>
        active[i].0 in loaded && loaded[active[i].0] == active[i].1 && IsActive(active[i].1.payload, now)
      requires forall id <- loaded :: IsActive(loaded[id].payload, now) ==>
        exists i :: 0 <= i < |active| && active[i].0 == id
      requires forall id <- loaded :: Reached(active, id) || rows[id] == loaded[id]
      requires forall sf :: sf in filters <==> sf in Index.Enabled(before)
      ensures forall sf <- Index.Enabled(db), id <- rows ::
        IsActive(rows[id].payload, now) ==> Agrees(db, rows, sf, id, now)
      ensures forall k: (Id, Id) :: !Concerned(db.filters, rows, k, now) ==> Index.SameMatch(before, db, k)
    {
      hide Accepts, SameText, ReadBack;
      assert active[..|active|] == active;
      forall sf, id | sf in Index.Enabled(db) && id in rows && IsActive(rows[id].payload, now)
        ensures Agrees(db, rows, sf, id, now)
      {
        var i :| 0 <= i < |active| && active[i].0 == id;
        assert SettledAt(db, rows, active[i], true, filters, now);
        var j :| 0 <= j < |filters| && filters[j] == sf;
        ReadBackText(t, rows[id].payload);
        SameTextIndexed(t, db, filters, now, id, rows[id].payload, ReadBack(t, rows[id].payload));
        assert IndexedFor(t, db, filters[j], now, id, ReadBack(t, rows[id].payload));
      }
      forall k: (Id, Id) | !Concerned(db.filters, rows, k, now)
        ensures Index.SameMatch(before, db, k)
      {
        assert forall i :: 0 <= i < |active| ==> SettledAt(db, rows, active[i], true, filters, now);
      }
    }
  }
}
