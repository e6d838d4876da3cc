/** The Message-ID of a digest: a hash of length-prefixed parts. Strings are sequences of bytes. */
module MessageId {
  import opened Basics
  import opened Decimals

  datatype Notice = Notice(title: string, url: string, reason: string)

  function Part(value: string): string {
    Printed(|value|) + ":" + value
  }

  function Encode(parts: seq<string>): string {
    if parts == [] then [] else Part(parts[0]) + Encode(parts[1..])
  }

  function FieldsOf(notices: seq<Notice>): seq<string> {
    if notices == [] then [] else [notices[0].title, notices[0].url, notices[0].reason] + FieldsOf(notices[1..])
  }

  /** The bytes that are hashed. */
  function Hashed(key: string, notices: seq<Notice>): string {
    Encode([key] + FieldsOf(notices))
  }

  // ---- decoding ----

  /** The length of the leading digits. */
  function Digits(s: string): (n: nat)
    ensures n <= |s| && (forall i :: 0 <= i < n ==> IsDigit(s[i])) && (n < |s| ==> !IsDigit(s[n]))
  {
    if s == [] || !IsDigit(s[0]) then 0 else 1 + Digits(s[1..])
  }

  function Decode(s: string): Option<seq<string>>
    decreases |s|
  {
    if s == [] then Some([])
    else
      var d := Digits(s);
      if d == 0 || d == |s| || s[d] != ':' then None
      else
        assert forall c <- s[..d] :: IsDigit(c);
        var n := Decimal(s[..d]);
        if d + 1 + n > |s| then None
        else
          match Decode(s[d + 1 + n..])
          case None => None
          case Some(rest) => Some([s[d + 1..d + 1 + n]] + rest)
  }

  lemma {:induction false} DigitsOfPart(digits: string, rest: string)
    requires (forall c <- digits :: IsDigit(c)) && rest != [] && !IsDigit(rest[0])
    ensures Digits(digits + rest) == |digits|
    decreases |digits|
  {
    if digits == [] {
      assert digits + rest == rest;
    } else {
      assert (digits + rest)[1..] == digits[1..] + rest;
      DigitsOfPart(digits[1..], rest);
    }
  }

  /** Decoding reads back one part and goes on behind it. */
  lemma DecodePart(value: string, rest: string)
    ensures Decode(Part(value) + rest) ==
      match Decode(rest)
      case None => None
      case Some(parts) => Some([value] + parts)
  {
    var digits := Printed(|value|);
    var s := Part(value) + rest;
    PrintedDigits(|value|);
    hide Printed, Decimal;
    assert s == digits + (":" + value + rest);
    DigitsOfPart(digits, ":" + value + rest);
    assert s[..|digits|] == digits && s[|digits|] == ':';
    assert s[|digits| + 1..|digits| + 1 + |value|] == value;
    assert s[|digits| + 1 + |value|..] == rest;
  }

  /** Encoding loses nothing. */
  lemma {:induction false} DecodeOfEncode(parts: seq<string>)
    ensures Decode(Encode(parts)) == Some(parts)
    decreases |parts|
  {
    hide Part;
    if parts == [] {
    } else {
      DecodePart(parts[0], Encode(parts[1..]));
      DecodeOfEncode(parts[1..]);
      assert parts == [parts[0]] + parts[1..];
    }
  }

  lemma {:induction false} FieldsInjective(a: seq<Notice>, b: seq<Notice>)
    requires FieldsOf(a) == FieldsOf(b)
    ensures a == b
    decreases |a|
  {
    if a != [] && b != [] {
      assert FieldsOf(a)[0] == a[0].title && FieldsOf(a)[1] == a[0].url && FieldsOf(a)[2] == a[0].reason;
      assert FieldsOf(b)[0] == b[0].title && FieldsOf(b)[1] == b[0].url && FieldsOf(b)[2] == b[0].reason;
      assert FieldsOf(a)[3..] == FieldsOf(a[1..]) && FieldsOf(b)[3..] == FieldsOf(b[1..]);
      FieldsInjective(a[1..], b[1..]);
      assert a == [a[0]] + a[1..] && b == [b[0]] + b[1..];
    }
  }

  /** The hashed bytes determine the delivery key and every notice. */
  lemma HashedBytesAreInjective(key: string, notices: seq<Notice>, key': string, notices': seq<Notice>)
    requires Hashed(key, notices) == Hashed(key', notices')
    ensures key == key' && notices == notices'
  {
    DecodeOfEncode([key] + FieldsOf(notices));
    DecodeOfEncode([key'] + FieldsOf(notices'));
    assert ([key] + FieldsOf(notices))[0] == key && ([key] + FieldsOf(notices))[1..] == FieldsOf(notices);
    assert ([key'] + FieldsOf(notices'))[0] == key' && ([key'] + FieldsOf(notices'))[1..] == FieldsOf(notices');
    FieldsInjective(notices, notices');
  }

  ghost predicate Collisionless(hash: string -> string) {
    forall a, b :: hash(a) == hash(b) ==> a == b
  }

  /** So, short of a hash collision, a Message-ID repeats exactly for the same delivery of the same notices. */
  lemma MessageIdsRepeatExactly(hash: string -> string, key: string, notices: seq<Notice>, key': string,
                                notices': seq<Notice>)
    requires Collisionless(hash)
    ensures hash(Hashed(key, notices)) + "@namo.invalid" == hash(Hashed(key', notices')) + "@namo.invalid"
      <==> key == key' && notices == notices'
  {
    var a, b := hash(Hashed(key, notices)), hash(Hashed(key', notices'));
    if a + "@namo.invalid" == b + "@namo.invalid" {
      assert |a| == |b|;
      assert a == (a + "@namo.invalid")[..|a|] && b == (b + "@namo.invalid")[..|b|];
      HashedBytesAreInjective(key, notices, key', notices');
    }
  }

  lemma {:induction false} EncodeAppends(parts: seq<string>, value: string)
    ensures Encode(parts + [value]) == Encode(parts) + Part(value)
    decreases |parts|
  {
    if parts == [] {
      assert parts + [value] == [value] && [value][1..] == [];
    } else {
      assert (parts + [value])[1..] == parts[1..] + [value];
      EncodeAppends(parts[1..], value);
    }
  }

  lemma {:induction false} FieldsAppend(notices: seq<Notice>, n: Notice)
    ensures FieldsOf(notices + [n]) == FieldsOf(notices) + [n.title, n.url, n.reason]
    decreases |notices|
  {
    if notices == [] {
      assert notices + [n] == [n] && [n][1..] == [];
    } else {
      assert (notices + [n])[1..] == notices[1..] + [n];
      FieldsAppend(notices[1..], n);
    }
  }

  /** The hash buffer, fed part by part. */
  class Buffer {
    var bytes: string

    constructor ()
      ensures bytes == []
    {
      bytes := [];
    }

    method WritePart(value: string)
      modifies this
      ensures bytes == old(bytes) + Part(value)
    {
      bytes := bytes + Printed(|value|) + ":";
      bytes := bytes + value;
    }
  }

  method DigestMessageId(hash: string -> string, deliveryKey: string, notices: seq<Notice>) returns (id: string)
    ensures id == hash(Hashed(deliveryKey, notices)) + "@namo.invalid"
  {
    var buffer := new Buffer();
    ghost var parts := [deliveryKey];
    buffer.WritePart(deliveryKey);
    EncodeAppends([], deliveryKey);
    assert [] + [deliveryKey] == parts;
    for i := 0 to |notices|
      invariant parts == [deliveryKey] + FieldsOf(notices[..i])
      invariant buffer.bytes == Encode(parts)
      invariant fresh(buffer)
    {
      var n := notices[i];
      buffer.WritePart(n.title);
      EncodeAppends(parts, n.title);
      buffer.WritePart(n.url);
      EncodeAppends(parts + [n.title], n.url);
      buffer.WritePart(n.reason);
      EncodeAppends(parts + [n.title] + [n.url], n.reason);
      assert notices[..i + 1] == notices[..i] + [n];
      FieldsAppend(notices[..i], n);
      parts := parts + [n.title] + [n.url] + [n.reason];
    }
    assert notices[..|notices|] == notices;
    return hash(buffer.bytes) + "@namo.invalid";
  }
}
