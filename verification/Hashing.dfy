/** The assumption that hashes have no collisions can be met: an injective encoding is one such hash. */
module Hashing {
  import opened Basics
  import opened Decimals
  import opened Notices
  import MessageId

  function Signed(n: int): string {
    if n < 0 then "-" + Printed(-n) else Printed(n)
  }

  lemma SignedInjective(m: int, n: int)
    requires Signed(m) == Signed(n)
    ensures m == n
  {
    PrintedDigits(if m < 0 then -m else m);
    PrintedDigits(if n < 0 then -n else n);
    assert m >= 0 ==> IsDigit(Signed(m)[0]);
    assert n >= 0 ==> IsDigit(Signed(n)[0]);
    if m < 0 {
      assert Signed(m)[1..] == Printed(-m) && Signed(n)[1..] == Printed(-n);
      PrintedInjective(-m, -n);
    } else {
      PrintedInjective(m, n);
    }
  }

  function Moment(t: Option<Time>): string {
    match t
    case None => ""
    case Some(n) => Signed(n)
  }

  lemma MomentInjective(a: Option<Time>, b: Option<Time>)
    requires Moment(a) == Moment(b)
    ensures a == b
  {
    if a.Some? {
      PrintedDigits(if a.value < 0 then -a.value else a.value);
    }
    if b.Some? {
      PrintedDigits(if b.value < 0 then -b.value else b.value);
    }
    if a.Some? && b.Some? {
      SignedInjective(a.value, b.value);
    }
  }

  function Parts(c: Content): seq<string> {
    [c.identity, c.title, c.agency, c.region, Signed(c.amount), c.url, Moment(c.posted), Moment(c.deadline), c.raw]
  }

  lemma PartsInjective(c: Content, d: Content)
    requires OfContent(c) == OfContent(d)
    ensures c == d
  {
    MessageId.DecodeOfEncode(Parts(c));
    MessageId.DecodeOfEncode(Parts(d));
    var p, q := Parts(c), Parts(d);
    assert p == q;
    assert p[0] == q[0] && p[1] == q[1] && p[2] == q[2] && p[3] == q[3] && p[4] == q[4];
    assert p[5] == q[5] && p[6] == q[6] && p[7] == q[7] && p[8] == q[8];
    SignedInjective(c.amount, d.amount);
    MomentInjective(c.posted, d.posted);
    MomentInjective(c.deadline, d.deadline);
  }

  function OfTriple(a: string, b: string, c: string): string {
    MessageId.Encode([a, b, c])
  }

  function OfContent(c: Content): string {
    MessageId.Encode(Parts(c))
  }

  lemma TriplesInjective(a: string, b: string, c: string, x: string, y: string, z: string)
    requires OfTriple(a, b, c) == OfTriple(x, y, z)
    ensures (a, b, c) == (x, y, z)
  {
    MessageId.DecodeOfEncode([a, b, c]);
    MessageId.DecodeOfEncode([x, y, z]);
    assert [a, b, c][0] == a && [a, b, c][1] == b && [a, b, c][2] == c;
    assert [x, y, z][0] == x && [x, y, z][1] == y && [x, y, z][2] == z;
  }

  lemma TriplesAreNotBlank(a: string, b: string, c: string)
    ensures OfTriple(a, b, c) != ""
  {
    MessageId.DecodeOfEncode([a, b, c]);
  }

  /** Texts as they are, hashed by encoding, with any rendering of jsonb. */
  function CollisionlessText(render: string -> string): (t: Text)
    ensures t.Collisionless() && t.render == render && forall s :: t.nfc(s) == s
  {
    NoCollisions(render);
    Text((s: string) => s, (s: string) => s, render, OfTriple, OfContent)
  }

  lemma NoCollisions(render: string -> string)
    ensures Text((s: string) => s, (s: string) => s, render, OfTriple, OfContent).Collisionless()
  {
    hide OfTriple, OfContent;
    var t := Text((s: string) => s, (s: string) => s, render, OfTriple, OfContent);
    forall a: string, b: string, c: string ensures t.identityHash(a, b, c) != "" {
      TriplesAreNotBlank(a, b, c);
    }
    forall a: string, b: string, c: string, x: string, y: string, z: string
      | t.identityHash(a, b, c) == t.identityHash(x, y, z)
      ensures (a, b, c) == (x, y, z)
    {
      TriplesInjective(a, b, c, x, y, z);
    }
    forall c: Content, d: Content | t.contentHash(c) == t.contentHash(d) ensures c == d {
      PartsInjective(c, d);
    }
  }

  // ---- what is hashed ----

  /** The parts of an identity or a revision, joined by NUL, before SHA-256. */
  function Joined(parts: seq<string>): string
    requires parts != []
  {
    if |parts| == 1 then parts[0] else parts[0] + "\0" + Joined(parts[1..])
  }

  /** The joined text tells its parts, as many as they are, when none but the last holds a NUL. */
  lemma {:induction false} JoinedTellsParts(a: seq<string>, b: seq<string>)
    requires |a| == |b| > 0 && Joined(a) == Joined(b)
    requires forall i :: 0 <= i < |a| - 1 ==> '\0' !in a[i] && '\0' !in b[i]
    ensures a == b
    decreases |a|
  {
    if |a| > 1 {
      var s, t := Joined(a), Joined(b);
      assert s[|a[0]|] == '\0' && t[|b[0]|] == '\0';
      assert forall i :: 0 <= i < |a[0]| ==> s[i] == a[0][i];
      assert forall i :: 0 <= i < |b[0]| ==> t[i] == b[0][i];
      assert |a[0]| == |b[0]|;
      assert a[0] == s[..|a[0]|] == b[0];
      assert Joined(a[1..]) == s[|a[0]| + 1..] == Joined(b[1..]);
      JoinedTellsParts(a[1..], b[1..]);
      assert a == [a[0]] + a[1..] && b == [b[0]] + b[1..];
    }
  }

  /** With a NUL in a number, two different notices have one identity. */
  lemma NulMakesTwoIdentitiesOne()
    ensures var a, b := ["goods", "1\0", "2"], ["goods", "1", "\02"]; a != b && Joined(a) == Joined(b)
  {
    var a, b := ["goods", "1\0", "2"], ["goods", "1", "\02"];
    assert a[1..] == ["1\0", "2"] && a[1..][1..] == ["2"] && b[1..] == ["1", "\02"] && b[1..][1..] == ["\02"];
    assert "1\0" + "\0" + "2" == "1" + "\0" + "\02";
    assert |a[1]| != |b[1]|;
  }
}
