/** A procurement notice, its validity, identity and revision. */
module Notices {
  import opened Basics
  import opened Strings

  const CONSTRUCTION := "construction"
  const SERVICE := "service"
  const GOODS := "goods"
  const FOREIGN := "foreign"

  /** An instant with the offset, in nanoseconds, of the zone it is given in. */
  datatype Zoned = Zoned(at: Time, offset: int)

  datatype Notice = Notice(
    category: string, number: string, sequence: string, title: string, agency: string, region: string,
    url: string, amount: int, posted: Option<Zoned>, deadline: Option<Zoned>, raw: string)

  /** What SHA-256 is applied to, before the parts are joined. */
  datatype Content = Content(
    identity: string, title: string, agency: string, region: string, amount: int, url: string,
    posted: Option<Time>, deadline: Option<Time>, raw: string)

  /**
   Unicode normalisation (NFC), case folding and the two hashes stay uninterpreted, and so does
   `render`: what becomes of a JSON text that is encoded into a payload, stored as jsonb and read
   back. Spaces and the order of keys are jsonb's own.
   */
  datatype Text = Text(
    nfc: string -> string, fold: string -> string, render: string -> string,
    identityHash: (string, string, string) -> string, contentHash: Content -> string)
  {
    function Normalize(s: string): string {
      TrimSpace(nfc(s))
    }

    /** The hashes tell their inputs apart, and hash nothing to the empty string. */
    ghost predicate Collisionless() {
      && (forall a, b, c :: identityHash(a, b, c) != "")
      && (forall a, b, c, x, y, z :: identityHash(a, b, c) == identityHash(x, y, z) ==> (a, b, c) == (x, y, z))
      && (forall c, d :: contentHash(c) == contentHash(d) ==> c == d)
    }

    /** A text that jsonb has rendered once comes back as it is. */
    ghost predicate StableRender() {
      forall s :: render(render(s)) == render(s)
    }
  }

  /** The first missing field, in the order the source checks them. */
  function SourceError(t: Text, n: Notice): Option<string> {
    if n.category !in [CONSTRUCTION, SERVICE, GOODS, FOREIGN] then Some("category")
    else if t.Normalize(n.number) == "" then Some("bid number")
    else if t.Normalize(n.sequence) == "" then Some("bid sequence")
    else if t.Normalize(n.title) == "" then Some("title")
    else None
  }

  predicate ValidSource(t: Text, n: Notice) {
    SourceError(t, n).None?
  }

  function Identity(t: Text, n: Notice): string {
    if !ValidSource(t, n) then "" else t.identityHash(n.category, t.Normalize(n.number), t.Normalize(n.sequence))
  }

  function RevisionRaw(raw: string): string {
    if TrimSpace(raw) == "null" then "" else TrimSpace(raw)
  }

  /** The revision holds its times in UTC. */
  function Instant(z: Option<Zoned>): Option<Time> {
    if z.Some? then Some(z.value.at) else None
  }

  function ContentOf(t: Text, n: Notice): Content {
    Content(Identity(t, n), t.Normalize(n.title), t.Normalize(n.agency), t.Normalize(n.region), n.amount,
            t.Normalize(n.url), Instant(n.posted), Instant(n.deadline), RevisionRaw(n.raw))
  }

  function Revision(t: Text, n: Notice): string {
    if Identity(t, n) == "" then "" else t.contentHash(ContentOf(t, n))
  }

  /** Neither identity nor revision depends on anything but the normalised content. */
  lemma RegionOnlyChangesRevision(t: Text, n: Notice, region: string)
    ensures Identity(t, n.(region := region)) == Identity(t, n)
    ensures ValidSource(t, n.(region := region)) == ValidSource(t, n)
  {
  }

  /** Of several missing fields the first is reported: category, number, sequence, title. */
  lemma SourceErrorMeans(t: Text, n: Notice)
    ensures var unknown := n.category !in {"construction", "service", "goods", "foreign"};
      var number, sequence, title := t.Normalize(n.number), t.Normalize(n.sequence), t.Normalize(n.title);
      && (SourceError(t, n) == Some("category") <==> unknown)
      && (SourceError(t, n) == Some("bid number") <==> !unknown && number == "")
      && (SourceError(t, n) == Some("bid sequence") <==> !unknown && number != "" && sequence == "")
      && (SourceError(t, n) == Some("title") <==> !unknown && number != "" && sequence != "" && title == "")
      && (ValidSource(t, n) <==> !unknown && number != "" && sequence != "" && title != "")
  {
  }

  /** Short of a collision, notices have one identity exactly when category, number and sequence agree. */
  lemma IdentityMeans(t: Text, a: Notice, b: Notice)
    requires t.Collisionless() && ValidSource(t, a) && ValidSource(t, b)
    ensures Identity(t, a) == Identity(t, b) <==>
      a.category == b.category && t.Normalize(a.number) == t.Normalize(b.number)
      && t.Normalize(a.sequence) == t.Normalize(b.sequence)
  {
  }

  /** And one revision exactly when all their fields agree, times as instants and raw items as trimmed texts. */
  lemma RevisionMeans(t: Text, a: Notice, b: Notice)
    requires t.Collisionless() && ValidSource(t, a) && ValidSource(t, b)
    ensures Revision(t, a) == Revision(t, b) <==>
      && a.category == b.category && t.Normalize(a.number) == t.Normalize(b.number)
      && t.Normalize(a.sequence) == t.Normalize(b.sequence)
      && t.Normalize(a.title) == t.Normalize(b.title) && t.Normalize(a.agency) == t.Normalize(b.agency)
      && t.Normalize(a.region) == t.Normalize(b.region) && t.Normalize(a.url) == t.Normalize(b.url)
      && a.amount == b.amount && Instant(a.posted) == Instant(b.posted) && Instant(a.deadline) == Instant(b.deadline)
      && RevisionRaw(a.raw) == RevisionRaw(b.raw)
  {
    hide ValidSource;
    IdentityMeans(t, a, b);
  }

  /** A raw item counts as its trimmed text, and JSON's null as none. */
  lemma RawMeans(raw: string)
    ensures TrimSpace(raw) != "null" ==> RevisionRaw(raw) == TrimSpace(raw)
    ensures TrimSpace(raw) == "null" ==> RevisionRaw(raw) == ""
  {
  }

  /** A stored notice as it is decoded from its payload: only the raw item comes back rendered. */
  function ReadBack(t: Text, n: Notice): Notice {
    n.(raw := t.render(n.raw))
  }

  lemma RawOnlyChangesRevision(t: Text, n: Notice, raw: string)
    ensures Identity(t, n.(raw := raw)) == Identity(t, n)
    ensures ValidSource(t, n.(raw := raw)) == ValidSource(t, n)
    ensures ContentOf(t, n.(raw := raw)) == ContentOf(t, n).(raw := RevisionRaw(raw))
  {
  }
}
