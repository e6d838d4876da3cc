/** What storing a sequence of notices leaves in the table. */
module NoticeBatch {
  import opened Basics
  import opened Notices
  import opened NoticeStore

  /** The table after storing the notices in their order. */
  ghost function StoreAll(t: Text, db: Db, ns: seq<Notice>): Db {
    if ns == [] then db else Store(t, StoreAll(t, db, ns[..|ns| - 1]), ns[|ns| - 1]).0
  }

  /** How many of these stores added a row or rewrote one. */
  ghost function Rewrites(t: Text, db: Db, ns: seq<Notice>): nat {
    if ns == [] then 0
    else
      var last := |ns| - 1;
      Rewrites(t, db, ns[..last]) + if StoreAll(t, db, ns).rows != StoreAll(t, db, ns[..last]).rows then 1 else 0
  }

  /** The notices before the first invalid one. */
  function ValidPrefix(t: Text, ns: seq<Notice>): (r: seq<Notice>)
    ensures r <= ns && (forall n <- r :: ValidSource(t, n)) && (|r| < |ns| ==> !ValidSource(t, ns[|r|]))
  {
    if ns == [] || !ValidSource(t, ns[0]) then [] else [ns[0]] + ValidPrefix(t, ns[1..])
  }

  lemma {:induction false} ValidPrefixIs(t: Text, ns: seq<Notice>, k: nat)
    requires k <= |ns| && (forall j :: 0 <= j < k ==> ValidSource(t, ns[j])) && (k < |ns| ==> !ValidSource(t, ns[k]))
    ensures ValidPrefix(t, ns) == ns[..k]
  {
    hide ValidSource;
    if k > 0 {
      assert ValidSource(t, ns[0]);
      assert forall j :: 0 <= j < k - 1 ==> ns[1..][j] == ns[j + 1];
      ValidPrefixIs(t, ns[1..], k - 1);
      assert ns[..k] == [ns[0]] + ns[1..][..k - 1];
    }
  }

  lemma ValidPrefixOfSum(t: Text, a: seq<Notice>, b: seq<Notice>)
    ensures ValidPrefix(t, a) == a ==> ValidPrefix(t, a + b) == a + ValidPrefix(t, b)
    ensures ValidPrefix(t, a) != a ==> ValidPrefix(t, a + b) == ValidPrefix(t, a)
  {
    hide ValidSource;
    var r, s := ValidPrefix(t, a), ValidPrefix(t, b);
    if r == a {
      forall j | 0 <= j < |a| + |s| ensures ValidSource(t, (a + b)[j]) {
        assert j < |a| ==> a[j] in r;
        assert j >= |a| ==> s[j - |a|] in s;
      }
      ValidPrefixIs(t, a + b, |a| + |s|);
      assert (a + b)[..|a| + |s|] == a + s;
    } else {
      forall j | 0 <= j < |r| ensures ValidSource(t, (a + b)[j]) {
        assert r[j] in r;
      }
      ValidPrefixIs(t, a + b, |r|);
      assert (a + b)[..|r|] == r;
    }
  }

  lemma {:induction false} StoreAllOfSum(t: Text, db: Db, a: seq<Notice>, b: seq<Notice>)
    ensures StoreAll(t, db, a + b) == StoreAll(t, StoreAll(t, db, a), b)
    ensures Rewrites(t, db, a + b) == Rewrites(t, db, a) + Rewrites(t, StoreAll(t, db, a), b)
    decreases |b|
  {
    hide Store;
    if b == [] {
      assert a + b == a;
    } else {
      var last := |b| - 1;
      StoreAllOfSum(t, db, a, b[..last]);
      assert (a + b)[..|a + b| - 1] == a + b[..last];
      assert (a + b)[|a + b| - 1] == b[last];
    }
  }

  lemma {:induction false} StoreAllKeepsInv(t: Text, db: Db, ns: seq<Notice>)
    requires Inv(t, db)
    ensures Inv(t, StoreAll(t, db, ns))
  {
    if ns != [] {
      hide Store, Inv;
      StoreAllKeepsInv(t, db, ns[..|ns| - 1]);
      StoreKeepsInv(t, StoreAll(t, db, ns[..|ns| - 1]), ns[|ns| - 1]);
    }
  }

  // ---- what one store leaves ----

  /** What a notice says apart from the region and the raw item, as far as revisions tell it apart. */
  datatype Fields = Fields(
    category: string, number: string, sequence: string, title: string, agency: string, url: string, amount: int,
    posted: Option<Time>, deadline: Option<Time>)

  function FieldsOf(t: Text, n: Notice): Fields {
    Fields(n.category, t.Normalize(n.number), t.Normalize(n.sequence), t.Normalize(n.title), t.Normalize(n.agency),
           t.Normalize(n.url), n.amount, Instant(n.posted), Instant(n.deadline))
  }

  /** The payload is this notice, but for a region that the notice does not name. */
  predicate Holds(t: Text, payload: Notice, n: Notice) {
    && FieldsOf(t, payload) == FieldsOf(t, n) && RevisionRaw(payload.raw) == RevisionRaw(n.raw)
    && (n.region != "" ==> t.Normalize(payload.region) == t.Normalize(n.region))
  }

  lemma SameContentSameFields(t: Text, a: Notice, b: Notice)
    requires t.Collisionless() && Revision(t, a) == Revision(t, b) && ValidSource(t, a) && ValidSource(t, b)
    ensures FieldsOf(t, a) == FieldsOf(t, b) && RevisionRaw(a.raw) == RevisionRaw(b.raw)
    ensures t.Normalize(a.region) == t.Normalize(b.region)
  {
    hide Revision, ValidSource;
    RevisionMeans(t, a, b);
  }

  lemma RegionIsNoField(t: Text, n: Notice, region: string, raw: string)
    ensures FieldsOf(t, n.(region := region, raw := raw)) == FieldsOf(t, n)
  {
  }

  /** Storing a valid notice leaves the row of its identity holding it. */
  lemma StoreHolds(t: Text, db: Db, n: Notice)
    requires t.Collisionless() && Inv(t, db) && ValidSource(t, n)
    ensures var (db', outcome) := Store(t, db, n);
      && outcome.Stored? && outcome.id in db'.rows
      && db'.rows[outcome.id].identity == Identity(t, n)
      && Holds(t, db'.rows[outcome.id].payload, n)
  {
    hide Identity, Revision, ValidSource, Inv, ContentOf, SourceError, Record, FieldsOf;
    ValidHasNoError(t, n);
    var found := FindIdentity(db.rows, Identity(t, n));
    if found.Some? {
      var row := db.rows[found.value];
      RowOf(t, db, found.value);
      RawOnlyChangesRevision(t, row.payload, t.render(row.payload.raw));
      var back := ReadBack(t, row.payload);
      MergedRegion(t, n, back, row.complete);
      var merged := MergeRegion(t, n, back, row.complete).value.0;
      assert merged == n.(region := merged.region, raw := n.raw);
      assert n.region != "" ==> merged == n;
      RegionIsNoField(t, n, merged.region, n.raw);
      if Revision(t, merged) == row.revision {
        SameContentSameFields(t, merged, row.payload);
      }
    }
  }

  /** A change is reported exactly when a row is added or rewritten. */
  lemma ChangedMeansRows(t: Text, db: Db, n: Notice)
    requires Inv(t, db) && ValidSource(t, n)
    ensures var (db', outcome) := Store(t, db, n);
      outcome.Stored? && (outcome.changed <==> db'.rows != db.rows) && (!outcome.changed ==> db' == db)
  {
    hide Identity, Revision, ValidSource, Inv, SourceError, Record;
    ValidHasNoError(t, n);
    StoreKeepsInv(t, db, n);
    var found := FindIdentity(db.rows, Identity(t, n));
    if found.Some? {
      RowOf(t, db, found.value);
      var row := db.rows[found.value];
      RawOnlyChangesRevision(t, row.payload, t.render(row.payload.raw));
      MergedRegion(t, n, ReadBack(t, row.payload), row.complete);
    } else if db.nextId in db.rows {
      RowOf(t, db, db.nextId);
    }
  }

  // ---- what all of them leave ----

  /** No later notice of the sequence has the identity of this one. */
  ghost predicate IsLast(t: Text, ns: seq<Notice>, j: int) {
    0 <= j < |ns| && forall k :: j < k < |ns| ==> Identity(t, ns[k]) != Identity(t, ns[j])
  }

  ghost predicate HasRow(t: Text, db: Db, id: Id, n: Notice) {
    id in db.rows && db.rows[id].identity == Identity(t, n)
  }

  /** The last notice of each identity is what the row of that identity holds. */
  lemma {:induction false} LastIsHeld(t: Text, db: Db, ns: seq<Notice>, j: nat) returns (id: Id)
    requires t.Collisionless() && Inv(t, db) && (forall n <- ns :: ValidSource(t, n)) && IsLast(t, ns, j)
    ensures var db' := StoreAll(t, db, ns); HasRow(t, db', id, ns[j]) && Holds(t, db'.rows[id].payload, ns[j])
    decreases |ns|
  {
    hide Store, Inv, Identity, Holds, ValidSource;
    var last := |ns| - 1;
    var before := StoreAll(t, db, ns[..last]);
    StoreAllKeepsInv(t, db, ns[..last]);
    if j == last {
      StoreHolds(t, before, ns[last]);
      id := Store(t, before, ns[last]).1.id;
    } else {
      id := LastIsHeld(t, db, ns[..last], j);
      StoreTouchesOneRow(t, before, ns[last]);
      StoreFinds(t, before, ns[last]);
    }
  }

  /** Rows of identities that were not among the notices stay as they were, and no row changes its identity. */
  lemma {:induction false} OthersStay(t: Text, db: Db, ns: seq<Notice>, id: Id)
    requires Inv(t, db) && (forall n <- ns :: ValidSource(t, n)) && id in db.rows
    ensures var db' := StoreAll(t, db, ns);
      && id in db'.rows && db'.rows[id].identity == db.rows[id].identity
      && ((forall n <- ns :: Identity(t, n) != db.rows[id].identity) ==> db'.rows[id] == db.rows[id])
    decreases |ns|
  {
    if ns != [] {
      hide Store, Inv, Identity, ValidSource;
      var last := |ns| - 1;
      var before := StoreAll(t, db, ns[..last]);
      StoreAllKeepsInv(t, db, ns[..last]);
      OthersStay(t, db, ns[..last], id);
      StoreTouchesOneRow(t, before, ns[last]);
      StoreFinds(t, before, ns[last]);
      assert ns[last] in ns && forall n <- ns[..last] :: n in ns;
    }
  }

  /** And there are no rows but those and the notices' own. */
  lemma {:induction false} NoOtherRows(t: Text, db: Db, ns: seq<Notice>, id: Id)
    requires Inv(t, db) && (forall n <- ns :: ValidSource(t, n)) && id in StoreAll(t, db, ns).rows
    ensures id in db.rows || exists n <- ns :: StoreAll(t, db, ns).rows[id].identity == Identity(t, n)
    decreases |ns|
  {
    if ns != [] {
      hide Store, Inv, Identity, ValidSource;
      var last := |ns| - 1;
      var before := StoreAll(t, db, ns[..last]);
      StoreAllKeepsInv(t, db, ns[..last]);
      StoreAddsItsOwn(t, before, ns[last]);
      StoreTouchesOneRow(t, before, ns[last]);
      assert ns[last] in ns && forall n <- ns[..last] :: n in ns;
      if id in before.rows {
        NoOtherRows(t, db, ns[..last], id);
      }
    }
  }

  lemma StoreAddsItsOwn(t: Text, db: Db, n: Notice)
    requires Inv(t, db)
    ensures var db' := Store(t, db, n).0;
      forall id <- db'.rows :: id in db.rows || db'.rows[id].identity == Identity(t, n)
  {
    hide Identity, Revision, MergeRegion, Inv, Record, SourceError;
  }
}
