/** The notices table and its revision history: storing, region preservation and lookup completion. */
module NoticeStore {
  import opened Basics
  import opened Strings
  import opened Notices
  import opened Matcher
  import Hashing

  /**
   A row of notices. `payload` is the notice as it was encoded; the column is jsonb, so what is
   decoded from it is `ReadBack` of that.
   */
  datatype Row = Row(identity: string, revision: string, payload: Notice, complete: bool)

  /** `history` is notice_revisions, keyed by notice and revision. */
  datatype Db = Db(rows: map<Id, Row>, history: map<(Id, string), Notice>, nextId: nat)

  datatype StoreError = MissingField(field: string) | IdentityMismatch

  datatype Outcome =
    | Failed(error: StoreError)
    | Stored(id: Id, changed: bool, region: string, complete: bool)

  // ---- the transactions ----

  /** The row found through the unique index on the identity hash. */
  ghost function FindIdentity(rows: map<Id, Row>, identity: string): (r: Option<Id>)
    ensures r.Some? ==> r.value in rows && rows[r.value].identity == identity
    ensures r.None? ==> forall id <- rows :: rows[id].identity != identity
  {
    if id :| id in rows && rows[id].identity == identity then Some(id) else None
  }

  /** mergeStoredRegion, given what is decoded from the payload: None is the identity mismatch error. */
  function MergeRegion(t: Text, n: Notice, stored: Notice, complete: bool): Option<(Notice, bool)> {
    if n.region != "" then Some((n, true))
    else if Identity(t, stored) != Identity(t, n) then None
    else
      var candidate := n.(region := stored.region);
      if Revision(t, candidate) == Revision(t, stored) then Some((candidate, complete)) else Some((n, false))
  }

  /** INSERT INTO notice_revisions ... ON CONFLICT DO NOTHING */
  function Record(history: map<(Id, string), Notice>, id: Id, revision: string, n: Notice): map<(Id, string), Notice> {
    if (id, revision) in history then history else history[(id, revision) := n]
  }

  function Insert(t: Text, db: Db, n: Notice): (Db, Outcome) {
    var id, complete := db.nextId, n.region != "";
    var row := Row(Identity(t, n), Revision(t, n), n, complete);
    (Db(db.rows[id := row], Record(db.history, id, row.revision, n), id + 1), Stored(id, true, n.region, complete))
  }

  function Update(t: Text, db: Db, id: Id, n: Notice): (Db, Outcome)
    requires id in db.rows
  {
    var row := db.rows[id];
    match MergeRegion(t, n, ReadBack(t, row.payload), row.complete)
    case None => (db, Failed(IdentityMismatch))
    case Some((merged, complete)) =>
      var revision := Revision(t, merged);
      if revision == row.revision then (db, Stored(id, false, merged.region, complete))
      else
        (db.(rows := db.rows[id := row.(revision := revision, payload := merged, complete := complete)],
             history := Record(db.history, id, revision, merged)),
         Stored(id, true, merged.region, complete))
  }

  ghost function Store(t: Text, db: Db, n: Notice): (Db, Outcome) {
    match SourceError(t, n)
    case Some(field) => (db, Failed(MissingField(field)))
    case None =>
      match FindIdentity(db.rows, Identity(t, n))
      case None => Insert(t, db, n)
      case Some(id) => Update(t, db, id, n)
  }

  /** MarkRegionLookupComplete; false is the missing notice error. */
  function Complete(db: Db, id: Id): (Db, bool) {
    if id !in db.rows then (db, false)
    else (db.(rows := db.rows[id := db.rows[id].(complete := true)]), true)
  }

  // ---- the invariant ----

  ghost predicate RowInv(t: Text, db: Db, id: Id, row: Row) {
    && ValidSource(t, row.payload)
    && row.identity == Identity(t, row.payload) && row.revision == Revision(t, row.payload)
    && (row.payload.region != "" ==> row.complete)
    && (id, row.revision) in db.history
    && id < db.nextId
  }

  ghost predicate HistoryInv(t: Text, db: Db, id: Id, revision: string, n: Notice) {
    id in db.rows && Revision(t, n) == revision && Identity(t, n) == db.rows[id].identity
  }

  ghost predicate Inv(t: Text, db: Db) {
    && (forall id <- db.rows :: RowInv(t, db, id, db.rows[id]))
    && (forall k <- db.history :: HistoryInv(t, db, k.0, k.1, db.history[k]))
    && (forall a, b :: a in db.rows && b in db.rows && db.rows[a].identity == db.rows[b].identity ==> a == b)
  }

  lemma RowOf(t: Text, db: Db, id: Id)
    requires Inv(t, db) && id in db.rows
    ensures RowInv(t, db, id, db.rows[id])
  {
  }

  lemma HistoryOf(t: Text, db: Db, k: (Id, string))
    requires Inv(t, db) && k in db.history
    ensures HistoryInv(t, db, k.0, k.1, db.history[k])
  {
  }

  lemma OneRow(t: Text, db: Db, a: Id, b: Id)
    requires Inv(t, db) && a in db.rows && b in db.rows && db.rows[a].identity == db.rows[b].identity
    ensures a == b
  {
  }

  lemma InsertKeepsInv(t: Text, db: Db, n: Notice)
    requires Inv(t, db) && ValidSource(t, n) && FindIdentity(db.rows, Identity(t, n)) == None
    ensures Inv(t, Insert(t, db, n).0)
  {
    hide Identity, Revision, ValidSource, Inv;
    var db' := Insert(t, db, n).0;
    forall id | id in db.rows ensures id != db.nextId && RowInv(t, db', id, db'.rows[id]) {
      RowOf(t, db, id);
    }
    forall k | k in db.history ensures HistoryInv(t, db', k.0, k.1, db'.history[k]) {
      HistoryOf(t, db, k);
    }
    forall a, b | a in db'.rows && b in db'.rows && db'.rows[a].identity == db'.rows[b].identity ensures a == b {
      if a in db.rows && b in db.rows {
        OneRow(t, db, a, b);
      }
    }
    InvOf(t, db');
  }

  /** What a merge may leave behind. */
  lemma MergedRegion(t: Text, n: Notice, stored: Notice, complete: bool)
    requires ValidSource(t, n) && ValidSource(t, stored) && Identity(t, n) == Identity(t, stored)
    requires stored.region != "" ==> complete
    ensures var m := MergeRegion(t, n, stored, complete);
      && m.Some? && ValidSource(t, m.value.0) && Identity(t, m.value.0) == Identity(t, n)
      && (m.value.0.region != "" ==> m.value.1)
  {
    RegionOnlyChangesRevision(t, n, stored.region);
  }

  /** A row may be rewritten under its own identity, with its revision on record. */
  lemma RewriteKeepsInv(t: Text, db: Db, id: Id, row: Row)
    requires Inv(t, db) && id in db.rows && row.identity == db.rows[id].identity
    requires ValidSource(t, row.payload) && row.identity == Identity(t, row.payload)
      && row.revision == Revision(t, row.payload)
    requires row.payload.region != "" ==> row.complete
    ensures Inv(t, db.(rows := db.rows[id := row], history := Record(db.history, id, row.revision, row.payload)))
  {
    hide Identity, Revision, ValidSource, Inv;
    var db' := db.(rows := db.rows[id := row], history := Record(db.history, id, row.revision, row.payload));
    forall o | o in db'.rows ensures RowInv(t, db', o, db'.rows[o]) {
      RowOf(t, db, o);
    }
    forall k | k in db'.history ensures HistoryInv(t, db', k.0, k.1, db'.history[k]) {
      if k in db.history {
        HistoryOf(t, db, k);
      }
    }
    forall a, b | a in db'.rows && b in db'.rows && db'.rows[a].identity == db'.rows[b].identity ensures a == b {
      OneRow(t, db, a, b);
    }
    assert Inv(t, db') by {
      InvOf(t, db');
    }
  }

  lemma InvOf(t: Text, db: Db)
    requires forall id <- db.rows :: RowInv(t, db, id, db.rows[id])
    requires forall k <- db.history :: HistoryInv(t, db, k.0, k.1, db.history[k])
    requires forall a, b :: a in db.rows && b in db.rows && db.rows[a].identity == db.rows[b].identity ==> a == b
    ensures Inv(t, db)
  {
  }

  lemma UpdateKeepsInv(t: Text, db: Db, id: Id, n: Notice)
    requires Inv(t, db) && ValidSource(t, n) && id in db.rows && db.rows[id].identity == Identity(t, n)
    ensures Inv(t, Update(t, db, id, n).0)
    ensures Update(t, db, id, n).1.Stored?
  {
    hide Identity, Revision, ValidSource, MergeRegion, Inv, Record;
    var row := db.rows[id];
    RowOf(t, db, id);
    RawOnlyChangesRevision(t, row.payload, t.render(row.payload.raw));
    MergedRegion(t, n, ReadBack(t, row.payload), row.complete);
    var (merged, complete) := MergeRegion(t, n, ReadBack(t, row.payload), row.complete).value;
    RewriteKeepsInv(t, db, id, row.(revision := Revision(t, merged), payload := merged, complete := complete));
  }

  /**
   Storing keeps the invariant and fails exactly on a notice without its required fields: the stored
   payload of the row that the identity finds always has that identity.
   */
  lemma StoreKeepsInv(t: Text, db: Db, n: Notice)
    requires Inv(t, db)
    ensures Inv(t, Store(t, db, n).0)
    ensures Store(t, db, n).1.Failed? <==> !ValidSource(t, n)
    ensures Store(t, db, n).1 != Failed(IdentityMismatch)
  {
    hide Inv, Insert, Update;
    if ValidSource(t, n) {
      var found := FindIdentity(db.rows, Identity(t, n));
      if found.Some? {
        UpdateKeepsInv(t, db, found.value, n);
      } else {
        InsertKeepsInv(t, db, n);
        InsertStores(t, db, n);
      }
    }
  }

  lemma InsertStores(t: Text, db: Db, n: Notice)
    ensures Insert(t, db, n).1.Stored?
  {
  }

  lemma CompleteKeepsInv(t: Text, db: Db, id: Id)
    requires Inv(t, db)
    ensures Inv(t, Complete(db, id).0)
  {
    hide Identity, Revision, ValidSource, Inv;
    if id in db.rows {
      RowOf(t, db, id);
      RewriteKeepsInv(t, db, id, db.rows[id].(complete := true));
    }
  }

  // ---- runs ----

  datatype Action = DoStore(n: Notice) | DoComplete(id: Id)

  ghost function Step(t: Text, db: Db, a: Action): Db {
    match a
    case DoStore(n) => Store(t, db, n).0
    case DoComplete(id) => Complete(db, id).0
  }

  ghost function Run(t: Text, db: Db, run: seq<Action>): Db
    decreases |run|
  {
    if run == [] then db else Run(t, Step(t, db, run[0]), run[1..])
  }

  const EMPTY := Db(map[], map[], 0)

  lemma {:induction false} RunKeepsInv(t: Text, db: Db, run: seq<Action>)
    requires Inv(t, db)
    ensures Inv(t, Run(t, db, run))
    decreases |run|
  {
    if run != [] {
      hide Inv, Store, Complete;
      match run[0]
      case DoStore(n) =>
        StoreKeepsInv(t, db, n);
        RunKeepsInv(t, Step(t, db, run[0]), run[1..]);
      case DoComplete(id) =>
        CompleteKeepsInv(t, db, id);
        RunKeepsInv(t, Step(t, db, run[0]), run[1..]);
    }
  }

  /**
   After any stores and completed lookups: a stored region means a completed lookup, the hash columns
   are those of the notice as it was encoded, the current revision is in the history, and every
   recorded revision is a notice with that hash and the row's identity.
   */
  lemma ReachableRows(t: Text, run: seq<Action>, id: Id)
    requires id in Run(t, EMPTY, run).rows
    ensures var db := Run(t, EMPTY, run); var row := db.rows[id];
      && (row.payload.region != "" ==> row.complete)
      && row.identity == Identity(t, row.payload) && row.revision == Revision(t, row.payload)
      && (id, row.revision) in db.history
      && (forall h | (id, h) in db.history ::
            Revision(t, db.history[(id, h)]) == h && Identity(t, db.history[(id, h)]) == row.identity)
      && (forall other | other in db.rows && db.rows[other].identity == row.identity :: other == id)
  {
    hide Identity, Revision, ValidSource;
    RunKeepsInv(t, EMPTY, run);
    var db := Run(t, EMPTY, run);
    RowOf(t, db, id);
    forall h | (id, h) in db.history
      ensures Revision(t, db.history[(id, h)]) == h && Identity(t, db.history[(id, h)]) == db.rows[id].identity
    {
      assert HistoryInv(t, db, id, h, db.history[(id, h)]);
    }
  }

  /** The hash of the payload as read back is the stored one exactly when jsonb renders the raw item as it was. */
  lemma ReadBackHashesExactly(t: Text, db: Db, id: Id)
    requires t.Collisionless() && Inv(t, db) && id in db.rows
    ensures var row := db.rows[id];
      var asItWas := RevisionRaw(t.render(row.payload.raw)) == RevisionRaw(row.payload.raw);
      && Identity(t, ReadBack(t, row.payload)) == row.identity
      && (Revision(t, ReadBack(t, row.payload)) == row.revision <==> asItWas)
  {
    hide Identity, Revision, ValidSource, Inv, ContentOf;
    var row := db.rows[id];
    RowOf(t, db, id);
    RawOnlyChangesRevision(t, row.payload, t.render(row.payload.raw));
    RawOnlyChangesRevision(t, row.payload, row.payload.raw);
    RevisionTellsContent(t, ReadBack(t, row.payload), row.payload);
  }

  // ---- region preservation ----

  lemma FoundRow(t: Text, db: Db, id: Id, identity: string)
    requires Inv(t, db) && id in db.rows && db.rows[id].identity == identity
    ensures FindIdentity(db.rows, identity) == Some(id)
  {
  }

  /** The item differs from the notice, as read back, in nothing but the region it does not name. */
  predicate OnlyRegionMissing(t: Text, n: Notice, stored: Notice) {
    ContentOf(t, n.(region := stored.region)) == ContentOf(t, ReadBack(t, stored))
  }

  /** That is: the same fields, and a raw item that reads as jsonb renders the stored one. */
  lemma OnlyRegionMissingMeans(t: Text, n: Notice, stored: Notice)
    ensures var sameFields := ContentOf(t, n.(region := stored.region, raw := "")) == ContentOf(t, stored.(raw := ""));
      OnlyRegionMissing(t, n, stored) <==> sameFields && RevisionRaw(n.raw) == RevisionRaw(t.render(stored.raw))
  {
    hide ContentOf;
    RawOnlyChangesRevision(t, n.(region := stored.region), "");
    RawOnlyChangesRevision(t, n.(region := stored.region), n.raw);
    RawOnlyChangesRevision(t, stored, "");
    RawOnlyChangesRevision(t, stored, t.render(stored.raw));
  }

  /** What a list item without a region does to the row of its identity. */
  lemma BlankRegionStep(t: Text, db: Db, id: Id, n: Notice)
    requires t.Collisionless() && Inv(t, db) && id in db.rows && ValidSource(t, n)
    requires n.region == "" && Identity(t, n) == db.rows[id].identity
    ensures var row := db.rows[id]; var (db', outcome) := Store(t, db, n);
      var known := ContentOf(t, n) == ContentOf(t, row.payload);
      var asItWas := RevisionRaw(t.render(row.payload.raw)) == RevisionRaw(row.payload.raw);
      && id in db'.rows && outcome.Stored? && outcome.id == id
      && (OnlyRegionMissing(t, n, row.payload) ==>
            db'.rows[id].payload.region == row.payload.region == outcome.region
            && db'.rows[id].complete == row.complete == outcome.complete)
      && (!OnlyRegionMissing(t, n, row.payload) ==> outcome == Stored(id, !known, "", false))
      && (!OnlyRegionMissing(t, n, row.payload) && known ==> db' == db)
      && (!OnlyRegionMissing(t, n, row.payload) && !known ==> db'.rows[id].payload == n && !db'.rows[id].complete)
      && (OnlyRegionMissing(t, n, row.payload) && asItWas ==> db' == db && !outcome.changed)
      && (known && row.payload.region == "" ==> db' == db && !outcome.changed)
  {
    hide Identity, Revision, ValidSource, Inv, ContentOf;
    var row := db.rows[id];
    var back := ReadBack(t, row.payload);
    var candidate := n.(region := row.payload.region);
    RowOf(t, db, id);
    FoundRow(t, db, id, Identity(t, n));
    ValidHasNoError(t, n);
    RawOnlyChangesRevision(t, row.payload, back.raw);
    RegionOnlyChangesRevision(t, n, row.payload.region);
    RevisionTellsContent(t, candidate, back);
    RevisionTellsContent(t, n, row.payload);
    RevisionTellsContent(t, back, row.payload);
    RawOnlyChangesRevision(t, row.payload, row.payload.raw);
    assert row.payload.region == "" ==> candidate == n;
  }

  /**
   A list item without a region, when the stored notice has one: the region and its completed lookup
   are kept exactly when nothing but the region is missing from the item, compared with what jsonb
   gives back. Otherwise the item is stored as it is, and its region has to be looked up again.
   */
  lemma BlankRegionKeepsRegionExactly(t: Text, db: Db, id: Id, n: Notice)
    requires t.Collisionless() && Inv(t, db) && id in db.rows && ValidSource(t, n)
    requires n.region == "" && Identity(t, n) == db.rows[id].identity
    requires t.Normalize(db.rows[id].payload.region) != t.Normalize("")
    ensures var row := db.rows[id]; var (db', outcome) := Store(t, db, n);
      && id in db'.rows && outcome.Stored? && outcome.id == id
      && (OnlyRegionMissing(t, n, row.payload) ==>
            db'.rows[id].payload.region == row.payload.region == outcome.region
            && db'.rows[id].complete && outcome.complete)
      && (!OnlyRegionMissing(t, n, row.payload) ==>
            outcome == Stored(id, true, "", false) && db'.rows[id].payload == n && !db'.rows[id].complete)
  {
    hide Identity, Revision, ValidSource, Inv, ContentOf, Store, OnlyRegionMissing;
    RowOf(t, db, id);
    BlankRegionStep(t, db, id, n);
    ContentNamesRegion(t, n, db.rows[id].payload);
    assert db.rows[id].payload.region != "";
  }

  lemma ContentNamesRegion(t: Text, a: Notice, b: Notice)
    ensures ContentOf(t, a) == ContentOf(t, b) ==> t.Normalize(a.region) == t.Normalize(b.region)
  {
  }

  lemma ValidHasNoError(t: Text, n: Notice)
    requires ValidSource(t, n)
    ensures SourceError(t, n).None?
  {
  }

  /** Revisions of valid notices agree exactly when their contents do. */
  lemma RevisionTellsContent(t: Text, a: Notice, b: Notice)
    requires t.Collisionless() && ValidSource(t, a) && ValidSource(t, b) && Identity(t, a) == Identity(t, b)
    ensures Revision(t, a) == Revision(t, b) <==> ContentOf(t, a) == ContentOf(t, b)
  {
  }

  /**
   A row is enriched with a looked-up region and its list item comes again: the region is kept exactly
   when jsonb renders the item's raw text as it was. Otherwise it is lost and the lookup is open again.
   */
  lemma EnrichmentSurvivesRestoreExactly(t: Text, db: Db, id: Id, region: string)
    requires t.Collisionless() && t.StableRender() && Inv(t, db) && id in db.rows
    requires t.Normalize(region) != t.Normalize("") && db.rows[id].payload.region == ""
    ensures var n := db.rows[id].payload;
      var enriched := Store(t, db, ReadBack(t, n).(region := region)).0;
      var (again, outcome) := Store(t, enriched, n);
      && id in enriched.rows
        && enriched.rows[id].payload == ReadBack(t, n).(region := region) && enriched.rows[id].complete
      && id in again.rows && outcome.Stored? && outcome.id == id
      && (RevisionRaw(t.render(n.raw)) == RevisionRaw(n.raw) ==>
            again == enriched && outcome == Stored(id, false, region, true))
      && (RevisionRaw(t.render(n.raw)) != RevisionRaw(n.raw) ==>
            again.rows[id].payload == n && !again.rows[id].complete && outcome == Stored(id, true, "", false))
  {
    hide Inv, Identity, Revision, ValidSource, ContentOf, Store;
    var n := db.rows[id].payload;
    var full := ReadBack(t, n).(region := region);
    RowOf(t, db, id);
    RawOnlyChangesRevision(t, n, t.render(n.raw));
    RegionOnlyChangesRevision(t, ReadBack(t, n), region);
    EnrichmentIsStored(t, db, id, region);
    StoreKeepsInv(t, db, full);
    var enriched := Store(t, db, full).0;
    StoreTouchesOneRow(t, db, full);
    BlankRegionKeepsRegionExactly(t, enriched, id, n);
    BlankRegionStep(t, enriched, id, n);
    OnlyRegionMissingMeans(t, n, full);
    SameFields(t, n, region);
    assert ReadBack(t, full).raw == full.raw;
  }

  lemma SameFields(t: Text, n: Notice, region: string)
    ensures n.(region := region, raw := "") == ReadBack(t, n).(region := region).(raw := "")
  {
  }

  /** Storing a looked-up region that is not blank rewrites the row with it. */
  lemma EnrichmentIsStored(t: Text, db: Db, id: Id, region: string)
    requires t.Collisionless() && Inv(t, db) && id in db.rows
    requires t.Normalize(region) != t.Normalize("") && db.rows[id].payload.region == ""
    ensures var full := ReadBack(t, db.rows[id].payload).(region := region); var (db', outcome) := Store(t, db, full);
      && outcome == Stored(id, true, region, true) && id in db'.rows
        && db'.rows[id].payload == full && db'.rows[id].complete
  {
    hide Inv, Identity, Revision, ValidSource, ContentOf, SourceError;
    var row := db.rows[id];
    var full := ReadBack(t, row.payload).(region := region);
    RowOf(t, db, id);
    RawOnlyChangesRevision(t, row.payload, t.render(row.payload.raw));
    RegionOnlyChangesRevision(t, ReadBack(t, row.payload), region);
    ValidHasNoError(t, full);
    FoundRow(t, db, id, Identity(t, full));
    RevisionTellsContent(t, full, row.payload);
    ContentNamesRegion(t, full, row.payload);
    assert full.region != "";
  }

  /** A stored notice that names its region is the row's content afterwards, whichever branch stored it. */
  lemma StoredContent(t: Text, db: Db, n: Notice)
    requires t.Collisionless() && Inv(t, db) && ValidSource(t, n)
    ensures var (db', outcome) := Store(t, db, n);
      && outcome.Stored? && outcome.id in db'.rows
      && db'.rows[outcome.id].identity == Identity(t, n)
      && (n.region != "" ==> ContentOf(t, db'.rows[outcome.id].payload) == ContentOf(t, n))
  {
    hide Identity, Revision, ValidSource, Inv, ContentOf, SourceError, Record;
    ValidHasNoError(t, n);
    var found := FindIdentity(db.rows, Identity(t, n));
    if found.Some? {
      RowOf(t, db, found.value);
      var row := db.rows[found.value];
      RawOnlyChangesRevision(t, row.payload, t.render(row.payload.raw));
      MergedRegion(t, n, ReadBack(t, row.payload), row.complete);
      RevisionTellsContent(t, n, row.payload);
    }
  }

  /** Storing touches one row, or adds one; the id of an identity never changes. */
  lemma StoreTouchesOneRow(t: Text, db: Db, n: Notice)
    requires Inv(t, db)
    ensures var (db', outcome) := Store(t, db, n);
      forall id <- db.rows :: id in db'.rows && db'.rows[id].identity == db.rows[id].identity
        && ((outcome.Stored? && id == outcome.id) || db'.rows[id] == db.rows[id])
  {
    hide Identity, Revision, ValidSource, MergeRegion, Inv, SourceError, Record;
    forall id | id in db.rows ensures id < db.nextId {
      RowOf(t, db, id);
    }
  }

  /**
   A notice of a new identity gets a new row, which holds it as it is and awaits its region's lookup unless
   it names one; its revision is recorded, and nothing else changes.
   */
  lemma NewIdentityIsInserted(t: Text, db: Db, n: Notice)
    requires Inv(t, db) && ValidSource(t, n) && forall id <- db.rows :: db.rows[id].identity != Identity(t, n)
    ensures var (db', outcome) := Store(t, db, n);
      && outcome == Stored(db.nextId, true, n.region, n.region != "") && db.nextId !in db.rows
      && db'.rows == db.rows[db.nextId := Row(Identity(t, n), Revision(t, n), n, n.region != "")]
      && db'.history == db.history[(db.nextId, Revision(t, n)) := n] && db'.nextId == db.nextId + 1
  {
    hide Identity, Revision, ValidSource, MergeRegion;
    ValidHasNoError(t, n);
    if db.nextId in db.rows {
      RowOf(t, db, db.nextId);
    }
    if (db.nextId, Revision(t, n)) in db.history {
      HistoryOf(t, db, (db.nextId, Revision(t, n)));
      RowOf(t, db, db.nextId);
    }
  }

  /** A recorded revision stays as it was first recorded, over any run. */
  lemma {:induction false} HistoryIsKept(t: Text, db: Db, run: seq<Action>, k: (Id, string))
    requires k in db.history
    ensures k in Run(t, db, run).history && Run(t, db, run).history[k] == db.history[k]
    decreases |run|
  {
    if run != [] {
      hide Store;
      HistoryStep(t, db, run[0], k);
      HistoryIsKept(t, Step(t, db, run[0]), run[1..], k);
    }
  }

  lemma HistoryStep(t: Text, db: Db, a: Action, k: (Id, string))
    requires k in db.history
    ensures k in Step(t, db, a).history && Step(t, db, a).history[k] == db.history[k]
  {
    hide Identity, Revision, SourceError, MergeRegion;
  }

  /** The row a store reports is the one of its identity. */
  lemma StoreFinds(t: Text, db: Db, n: Notice)
    requires Inv(t, db)
    ensures var (db', outcome) := Store(t, db, n);
      && (!ValidSource(t, n) ==> db' == db)
      && (outcome.Stored? && outcome.id in db.rows ==> db.rows[outcome.id].identity == Identity(t, n))
  {
    hide Identity, Revision, MergeRegion, Inv;
    if db.nextId in db.rows {
      RowOf(t, db, db.nextId);
    }
  }

  /**
   A completed lookup is reopened exactly by a list item without region that is neither the stored
   notice itself nor, compared with what jsonb gives back, that notice without its region.
   */
  lemma LookupReopensExactly(t: Text, db: Db, a: Action, id: Id)
    requires t.Collisionless() && Inv(t, db) && id in db.rows && db.rows[id].complete
    ensures id in Step(t, db, a).rows
    ensures !Step(t, db, a).rows[id].complete <==>
      a.DoStore? && ValidSource(t, a.n) && Identity(t, a.n) == db.rows[id].identity && a.n.region == ""
        && !OnlyRegionMissing(t, a.n, db.rows[id].payload) && ContentOf(t, a.n) != ContentOf(t, db.rows[id].payload)
  {
    hide Identity, Revision, MergeRegion, ContentOf, Inv, SourceError, OnlyRegionMissing;
    match a
    case DoComplete(_) =>
    case DoStore(n) =>
      StoreTouchesOneRow(t, db, n);
      StoreFinds(t, db, n);
      if ValidSource(t, n) && Identity(t, n) == db.rows[id].identity {
        FoundRow(t, db, id, Identity(t, n));
        if n.region == "" {
          BlankRegionStep(t, db, id, n);
        } else {
          NamedRegionIsComplete(t, db, id, n);
        }
      }
  }

  lemma NamedRegionIsComplete(t: Text, db: Db, id: Id, n: Notice)
    requires Inv(t, db) && id in db.rows && db.rows[id].complete && n.region != ""
    ensures id in Update(t, db, id, n).0.rows && Update(t, db, id, n).0.rows[id].complete
  {
    hide Inv, Identity, Revision;
  }

  /** Storing a looked-up region leaves its row with the text that was looked up. */
  lemma EnrichedText(t: Text, db: Db, id: Id, region: string)
    requires t.Collisionless() && Inv(t, db) && id in db.rows && region != ""
    ensures var full := ReadBack(t, db.rows[id].payload).(region := region); var (db', outcome) := Store(t, db, full);
      && outcome.Stored? && outcome.id == id && id in db'.rows
      && SameText(t, db'.rows[id].payload, full)
  {
    hide Inv, Identity, Revision, ValidSource, ContentOf, SourceError;
    var row := db.rows[id];
    var full := ReadBack(t, row.payload).(region := region);
    RowOf(t, db, id);
    RawOnlyChangesRevision(t, row.payload, t.render(row.payload.raw));
    RegionOnlyChangesRevision(t, ReadBack(t, row.payload), region);
    ValidHasNoError(t, full);
    FoundRow(t, db, id, Identity(t, full));
    RevisionTellsContent(t, full, row.payload);
    ContentNamesRegion(t, full, row.payload);
  }

  // ---- a failing input ----

  const COMPACT := "{\"a\":1}"
  const SPACED := "{\"a\": 1}"

  /** What jsonb makes of that one object. */
  function Jsonb(s: string): string {
    if s == COMPACT then SPACED else s
  }

  /**
   A notice whose raw item is an object as the client writes it: it is listed, enriched and listed
   again unchanged, and its region is gone and its lookup open, because jsonb put a space in it.
   */
  lemma ListedAgainLosesItsRegion() returns (t: Text, n: Notice, run: seq<Action>)
    ensures n.raw == COMPACT && n.region == "" && ValidSource(t, n) && t.StableRender() && t.Collisionless()
    ensures run == [DoStore(n), DoStore(ReadBack(t, n).(region := "Seoul")), DoStore(n)]
    ensures var enriched := Run(t, EMPTY, run[..2]); var again := Run(t, EMPTY, run);
      && 0 in enriched.rows && enriched.rows[0].payload.region == "Seoul" && enriched.rows[0].complete
      && 0 in again.rows && again.rows[0].payload == n && !again.rows[0].complete
  {
    hide Store, Run, Inv, ValidSource, Hashing.CollisionlessText;
    t, n := Hashing.CollisionlessText(Jsonb), CHAIRS;
    var full := ReadBack(t, n).(region := "Seoul");
    run := [DoStore(n), DoStore(full), DoStore(n)];
    JsonbIsStable(t);
    ShortWords(t);
    ChairsAreValid(t);
    FirstStore(t, n);
    EnrichmentSurvivesRestoreExactly(t, Store(t, EMPTY, n).0, 0, "Seoul");
    ThreeStores(t, EMPTY, n, full);
  }

  const CHAIRS := Notice(GOODS, "1", "0", "Chairs", "", "", "", 0, None, None, COMPACT)

  lemma JsonbIsStable(t: Text)
    requires t.render == Jsonb
    ensures t.StableRender() && t.render(COMPACT) == SPACED
  {
    assert |COMPACT| != |SPACED|;
    forall s ensures t.render(t.render(s)) == t.render(s) {
    }
  }

  lemma ChairsAreValid(t: Text)
    requires t.Normalize("1") == "1" && t.Normalize("0") == "0" && t.Normalize("Chairs") == "Chairs"
    ensures ValidSource(t, CHAIRS)
  {
  }

  lemma FirstStore(t: Text, n: Notice)
    requires ValidSource(t, n)
    ensures var db := Store(t, EMPTY, n).0; Inv(t, db) && 0 in db.rows && db.rows[0].payload == n
  {
    StoreKeepsInv(t, EMPTY, n);
  }

  lemma ThreeStores(t: Text, db: Db, a: Notice, b: Notice)
    ensures var run := [DoStore(a), DoStore(b), DoStore(a)]; var second := Store(t, Store(t, db, a).0, b).0;
      Run(t, db, run[..2]) == second && Run(t, db, run) == Store(t, second, a).0
  {
    hide Store;
    var run := [DoStore(a), DoStore(b), DoStore(a)];
    var one, two := Store(t, db, a).0, Store(t, Store(t, db, a).0, b).0;
    assert run[..2] == [DoStore(a), DoStore(b)] && run[..2][1..] == [DoStore(b)] && [DoStore(b)][1..] == [];
    assert run[1..] == [DoStore(b), DoStore(a)] && run[1..][1..] == [DoStore(a)] && [DoStore(a)][1..] == [];
    assert Run(t, db, run[..2]) == Run(t, one, [DoStore(b)]) == Run(t, two, []);
    assert Run(t, db, run) == Run(t, one, [DoStore(b), DoStore(a)]) == Run(t, two, [DoStore(a)]);
  }

  /** The words of the example are trimmed already. */
  lemma ShortWords(t: Text)
    requires forall s :: t.nfc(s) == s
    ensures t.Normalize("1") == "1" && t.Normalize("0") == "0" && t.Normalize("Chairs") == "Chairs"
    ensures t.Normalize("Seoul") == "Seoul" && t.Normalize("") == ""
    ensures RevisionRaw(COMPACT) != RevisionRaw(SPACED)
  {
    Trimmed("1");
    Trimmed("0");
    Trimmed("Chairs");
    Trimmed("Seoul");
    Trimmed(COMPACT);
    Trimmed(SPACED);
    assert |COMPACT| != |SPACED|;
  }

  lemma Trimmed(s: string)
    requires s != "" && !IsSpace(s[0]) && !IsSpace(s[|s| - 1])
    ensures TrimSpace(s) == s
  {
  }

  // ---- the code ----

  class Database {
    const t: Text
    var rows: map<Id, Row>
    var history: map<(Id, string), Notice>
    var nextId: nat

    function State(): Db
      reads this
    {
      Db(rows, history, nextId)
    }

    ghost predicate Valid()
      reads this
    {
      Inv(t, State())
    }

    constructor (t: Text)
      ensures Valid() && State() == EMPTY && this.t == t
    {
      this.t := t;
      rows, history, nextId := map[], map[], 0;
    }

    method SelectIdentity(identity: string) returns (r: Option<Id>)
      requires Valid()
      ensures r == FindIdentity(rows, identity)
    {
      hide Inv;
      var rest := rows.Keys;
      while rest != {}
        invariant rest <= rows.Keys
        invariant forall id :: id in rows.Keys - rest ==> rows[id].identity != identity
        decreases rest
      {
        var id :| id in rest;
        if rows[id].identity == identity {
          FoundRow(t, State(), id, identity);
          return Some(id);
        }
        rest := rest - {id};
      }
      return None;
    }

    method StoreNotice(incoming: Notice) returns (outcome: Outcome)
      requires Valid()
      modifies this
      ensures Valid()
      ensures (State(), outcome) == Store(t, old(State()), incoming)
    {
      hide Inv, Identity, Revision;
      StoreKeepsInv(t, State(), incoming);
      var invalid := SourceError(t, incoming);
      if invalid.Some? {
        return Failed(MissingField(invalid.value));
      }
      var notice, complete := incoming, incoming.region != "";
      var identity, revision := Identity(t, notice), Revision(t, notice);
      var found := SelectIdentity(identity);
      if found.None? {
        rows := rows[nextId := Row(identity, revision, notice, complete)];
        history := Record(history, nextId, revision, notice);
        nextId := nextId + 1;
        return Stored(nextId - 1, true, notice.region, complete);
      }
      var row := rows[found.value];
      var merged := MergeRegion(t, notice, ReadBack(t, row.payload), row.complete);
      if merged.None? {
        return Failed(IdentityMismatch);
      }
      notice, complete := merged.value.0, merged.value.1;
      revision := Revision(t, notice);
      if revision == row.revision {
        return Stored(found.value, false, notice.region, complete);
      }
      rows := rows[found.value := row.(revision := revision, payload := notice, complete := complete)];
      history := Record(history, found.value, revision, notice);
      return Stored(found.value, true, notice.region, complete);
    }

    method MarkRegionLookupComplete(id: Id) returns (ok: bool)
      requires Valid()
      modifies this`rows
      ensures Valid()
      ensures (State(), ok) == Complete(old(State()), id)
    {
      hide Inv;
      CompleteKeepsInv(t, State(), id);
      if id !in rows {
        return false;
      }
      rows := rows[id := rows[id].(complete := true)];
      return true;
    }
  }
}
