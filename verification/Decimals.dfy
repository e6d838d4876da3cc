/** Decimal numerals. */
module Decimals {
  import opened Basics

  predicate IsDigit(c: char) {
    '0' <= c <= '9'
  }

  function Digit(c: char): nat
    requires IsDigit(c)
  {
    c as int - '0' as int
  }

  function Decimal(s: string): nat
    requires forall c <- s :: IsDigit(c)
  {
    if s == [] then 0 else 10 * Decimal(s[..|s| - 1]) + Digit(s[|s| - 1])
  }

  function Printed(n: nat): string {
    if n < 10 then [('0' as int + n) as char] else Printed(n / 10) + [('0' as int + n % 10) as char]
  }

  lemma {:induction false} PrintedDigits(n: nat)
    ensures Printed(n) != [] && (forall c <- Printed(n) :: IsDigit(c)) && Decimal(Printed(n)) == n
  {
    if n >= 10 {
      PrintedDigits(n / 10);
      assert Printed(n)[..|Printed(n)| - 1] == Printed(n / 10);
    } else {
      assert Printed(n)[..0] == [];
    }
  }

  /** Different numbers print differently. */
  lemma PrintedInjective(m: nat, n: nat)
    requires Printed(m) == Printed(n)
    ensures m == n
  {
    PrintedDigits(m);
    PrintedDigits(n);
  }

  const MAX_INT64: int := 0x7fff_ffff_ffff_ffff

  function Unsigned(s: string): Option<nat> {
    if s == [] || exists c <- s :: !IsDigit(c) then None else Some(Decimal(s))
  }

  /** strconv.ParseInt(s, 10, 64) */
  function ParseInt(s: string): Option<int> {
    var negative := s != [] && s[0] == '-';
    match Unsigned(if s != [] && (s[0] == '-' || s[0] == '+') then s[1..] else s)
    case None => None
    case Some(n) =>
      var size: int := n;
      var value := if negative then -size else size;
      if -MAX_INT64 - 1 <= value <= MAX_INT64 then Some(value) else None
  }
}
