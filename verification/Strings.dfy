/** The string functions that several modules share. */
module Strings {

  /** unicode.IsSpace */
  predicate IsSpace(c: char) {
    var n := c as int;
    || 0x09 <= n <= 0x0d || n == 0x20 || n == 0x85 || n == 0xa0 || n == 0x1680 || 0x2000 <= n <= 0x200a
    || n == 0x2028 || n == 0x2029 || n == 0x202f || n == 0x205f || n == 0x3000
  }

  function DropLeft(s: string, p: char -> bool): string {
    if s != [] && p(s[0]) then DropLeft(s[1..], p) else s
  }

  function DropRight(s: string, p: char -> bool): string {
    if s != [] && p(s[|s| - 1]) then DropRight(s[..|s| - 1], p) else s
  }

  function TrimSpace(s: string): string {
    DropRight(DropLeft(s, IsSpace), IsSpace)
  }

  /** r is s without the characters of p at both its ends: those, and no others, are dropped. */
  ghost predicate TrimmedOf(s: string, p: char -> bool, r: string) {
    && (exists i, j :: Dropped(s, p, i, j) && r == s[i..j])
    && (r != [] ==> !p(r[0]) && !p(r[|r| - 1]))
  }

  ghost predicate Dropped(s: string, p: char -> bool, i: int, j: int) {
    && 0 <= i <= j <= |s|
    && (forall k :: 0 <= k < i ==> p(s[k])) && (forall k :: j <= k < |s| ==> p(s[k]))
  }

  lemma {:induction false} DropLeftIs(s: string, p: char -> bool) returns (i: nat)
    ensures i <= |s| && DropLeft(s, p) == s[i..] && (forall k :: 0 <= k < i ==> p(s[k])) && (i < |s| ==> !p(s[i]))
    decreases |s|
  {
    i := 0;
    if s != [] && p(s[0]) {
      var rest := DropLeftIs(s[1..], p);
      i := rest + 1;
      assert s[1..][rest..] == s[i..];
      assert forall k :: 0 < k < i ==> s[k] == s[1..][k - 1];
    }
  }

  lemma {:induction false} DropRightIs(s: string, p: char -> bool) returns (j: nat)
    ensures j <= |s| && DropRight(s, p) == s[..j]
    ensures (forall k :: j <= k < |s| ==> p(s[k])) && (j > 0 ==> !p(s[j - 1]))
    decreases |s|
  {
    j := |s|;
    if s != [] && p(s[|s| - 1]) {
      j := DropRightIs(s[..|s| - 1], p);
    }
  }

  lemma TrimmingMeans(s: string, p: char -> bool)
    ensures TrimmedOf(s, p, DropRight(DropLeft(s, p), p))
  {
    var i := DropLeftIs(s, p);
    var j := DropRightIs(s[i..], p);
    assert s[i..][..j] == s[i..i + j];
    assert forall k :: i + j <= k < |s| ==> s[k] == s[i..][k - i];
    assert Dropped(s, p, i, i + j);
  }

  /** A text has one trimmed form. */
  lemma TrimmedOnce(s: string, p: char -> bool, a: string, b: string)
    requires TrimmedOf(s, p, a) && TrimmedOf(s, p, b)
    ensures a == b
  {
    var i, j :| Dropped(s, p, i, j) && a == s[i..j];
    var k, l :| Dropped(s, p, k, l) && b == s[k..l];
    if i < j {
      assert s[i] == a[0] && s[j - 1] == a[|a| - 1];
    }
    if k < l {
      assert s[k] == b[0] && s[l - 1] == b[|b| - 1];
    }
  }

  /** strings.TrimSpace drops the space at both ends and nothing else; a text is blank when that leaves nothing. */
  lemma TrimSpaceMeans(s: string)
    ensures TrimmedOf(s, IsSpace, TrimSpace(s))
    ensures Blank(s) <==> forall c <- s :: IsSpace(c)
  {
    TrimmingMeans(s, IsSpace);
    var i, j :| Dropped(s, IsSpace, i, j) && TrimSpace(s) == s[i..j];
    if i < j {
      assert s[i] in s && s[i] == TrimSpace(s)[0];
    }
  }

  predicate Blank(s: string) {
    TrimSpace(s) == []
  }

  /** strings.Contains */
  predicate HasSubstring(value: string, part: string) {
    exists i | 0 <= i <= |value| - |part| :: part <= value[i..]
  }
}
