/**
 Listing notices from the procurement API: checked pagination, and the conversion of every item to a
 notice or to warnings. The responses are given as a function of the page number.
 */
module PageList {
  import opened Basics
  import opened Decimals
  import opened Strings
  import opened Notices

  // ---- numbers and times ----

  function WithoutCommas(s: string): string {
    if s == [] then [] else (if s[0] == ',' then [] else [s[0]]) + WithoutCommas(s[1..])
  }

  /** parseAmount: the amount, or None when it is not one. */
  function ParseAmount(s: string): Option<int> {
    var value := TrimSpace(WithoutCommas(s));
    if value == "" then Some(0)
    else
      match ParseInt(value)
      case Some(n) => if n >= 0 then Some(n) else None
      case None => None
  }

  /** Any way of writing an amount with commas and surrounding space is read as that amount; larger ones are refused. */
  lemma AmountRoundTrip(n: nat, written: string)
    requires TrimSpace(WithoutCommas(written)) == Printed(n)
    ensures ParseAmount(written) == if n <= MAX_INT64 then Some(n) else None
  {
    PrintedDigits(n);
    assert IsDigit(Printed(n)[0]);
  }

  /** Commas, and nothing else, are dropped. */
  lemma {:induction false} CommasDropped(a: string, b: string)
    ensures WithoutCommas(a + "," + b) == WithoutCommas(a) + WithoutCommas(b)
    ensures (forall c <- a :: c != ',') ==> WithoutCommas(a) == a
    decreases |a|
  {
    if a == [] {
      assert (a + "," + b)[1..] == b;
    } else {
      assert (a + "," + b)[1..] == a[1..] + "," + b;
      CommasDropped(a[1..], b);
      assert a == [a[0]] + a[1..];
      assert a[0] in a && forall c <- a[1..] :: c in a;
    }
  }

  /** A text of digits that is this number. */
  ghost predicate Numeral(s: string, n: int) {
    s != "" && (forall c <- s :: IsDigit(c)) && n == Decimal(s)
  }

  /**
   A text is read as an amount exactly when, without commas and outer space, it is empty, for zero, or a
   decimal numeral up to 64 bits, which may have a plus sign, or a minus sign for zero.
   */
  lemma AmountMeans(s: string, n: int)
    ensures var value := TrimSpace(WithoutCommas(s));
      ParseAmount(s) == Some(n) <==>
        || (value == "" && n == 0)
        || (value != "" && 0 <= n <= MAX_INT64
            && (Numeral(value, n) || (value[0] == '+' && Numeral(value[1..], n))
                || (value[0] == '-' && n == 0 && Numeral(value[1..], 0))))
  {
    var value := TrimSpace(WithoutCommas(s));
    if value != "" {
      assert value[0] in value;
    }
  }

  lemma AmountInRange(s: string)
    ensures ParseAmount(s).Some? ==> 0 <= ParseAmount(s).value <= MAX_INT64
  {
  }

  // ---- blank text ----

  lemma {:induction false} AllSpaceIsBlank(s: string)
    requires forall c <- s :: IsSpace(c)
    ensures DropLeft(s, IsSpace) == [] && TrimSpace(s) == []
    decreases |s|
  {
    if s != [] {
      AllSpaceIsBlank(s[1..]);
    }
  }

  lemma {:induction false} TrimmedAllSpace(s: string)
    requires TrimSpace(s) == []
    ensures forall c <- s :: IsSpace(c)
    decreases |s|
  {
    if s != [] {
      if IsSpace(s[0]) {
        assert DropLeft(s, IsSpace) == DropLeft(s[1..], IsSpace);
        TrimmedAllSpace(s[1..]);
        assert s == [s[0]] + s[1..];
      } else {
        assert DropLeft(s, IsSpace) == s;
        DropRightKeepsFirst(s);
      }
    }
  }

  lemma {:induction false} DropRightKeepsFirst(s: string)
    requires s != [] && !IsSpace(s[0])
    ensures DropRight(s, IsSpace) != []
    decreases |s|
  {
    if |s| > 1 && IsSpace(s[|s| - 1]) {
      DropRightKeepsFirst(s[..|s| - 1]);
    }
  }

  lemma {:induction false} CommaChars(s: string)
    ensures forall c <- WithoutCommas(s) :: c in s
  {
    if s != [] {
      CommaChars(s[1..]);
    }
  }

  /** An amount that cannot be read is not blank, so it draws a warning. */
  lemma UnreadableAmountIsNotBlank(s: string)
    ensures ParseAmount(s).None? ==> !Blank(s)
  {
    if Blank(s) {
      TrimmedAllSpace(s);
      CommaChars(s);
      AllSpaceIsBlank(WithoutCommas(s));
    }
  }

  // ---- items ----

  datatype ApiNotice = ApiNotice(
    number: string, sequence: string, title: string, agency: string, region: string, url: string,
    amount: string, posted: string, deadline: string)

  datatype Warning = Warning(page: nat, item: nat, field: string, code: string)

  /** What is not modelled: JSON decoding with its redaction, and the three time layouts. */
  datatype Codec = Codec(text: Text, decode: string -> Option<ApiNotice>, scrub: string -> string,
                         layout: (nat, string) -> Option<Zoned>)

  /** parseTime: Some(None) is the zero time of a blank field. */
  function ParseTime(c: Codec, s: string): Option<Option<Zoned>> {
    var value := TrimSpace(s);
    if value == "" then Some(None)
    else if c.layout(0, value).Some? then Some(c.layout(0, value))
    else if c.layout(1, value).Some? then Some(c.layout(1, value))
    else if c.layout(2, value).Some? then Some(c.layout(2, value))
    else None
  }

  /** The reading of a nonblank text by the first of the layouts up to k that accepts it. */
  ghost predicate FirstReading(c: Codec, value: string, k: int, z: Zoned) {
    0 <= k < 3 && c.layout(k, value) == Some(z) && forall j :: 0 <= j < k ==> c.layout(j, value).None?
  }

  /** A blank time is no time; any other is what the first accepting layout makes of it, and unreadable without one. */
  lemma TimeMeans(c: Codec, s: string)
    ensures ParseTime(c, s) == Some(None) <==> Blank(s)
    ensures forall z :: ParseTime(c, s) == Some(Some(z)) <==>
      !Blank(s) && exists k :: FirstReading(c, TrimSpace(s), k, z)
    ensures ParseTime(c, s).None? <==> !Blank(s) && forall k :: 0 <= k < 3 ==> c.layout(k, TrimSpace(s)).None?
  {
    forall z ensures ParseTime(c, s) == Some(Some(z)) <==>
        !Blank(s) && exists k :: FirstReading(c, TrimSpace(s), k, z) {
      if ParseTime(c, s) == Some(Some(z)) {
        assert exists k :: FirstReading(c, TrimSpace(s), k, z) by {
          if c.layout(0, TrimSpace(s)).Some? {
            assert FirstReading(c, TrimSpace(s), 0, z);
          } else if c.layout(1, TrimSpace(s)).Some? {
            assert FirstReading(c, TrimSpace(s), 1, z);
          } else {
            assert FirstReading(c, TrimSpace(s), 2, z);
          }
        }
      }
    }
  }

  function When(b: bool, w: Warning): seq<Warning> {
    if b then [w] else []
  }

  function GetOr<T>(o: Option<T>, default: T): T {
    if o.Some? then o.value else default
  }

  function NoticeOf(c: Codec, category: string, raw: string, n: ApiNotice): Notice {
    Notice(category, n.number, n.sequence, c.text.Normalize(n.title), c.text.Normalize(n.agency),
           c.text.Normalize(n.region),
           c.text.Normalize(n.url), GetOr(ParseAmount(n.amount), 0), GetOr(ParseTime(c, n.posted), None),
           GetOr(ParseTime(c, n.deadline), None), c.scrub(raw))
  }

  predicate Accepted(c: Codec, category: string, raw: string, n: ApiNotice) {
    && ParseAmount(n.amount).Some? && ParseTime(c, n.posted).Some? && ParseTime(c, n.deadline).Some?
    && ValidSource(c.text, NoticeOf(c, category, raw, n))
  }

  function WarningsOf(c: Codec, category: string, raw: string, n: ApiNotice, page: nat, item: nat): seq<Warning> {
    var notice := NoticeOf(c, category, raw, n);
    var missing := SourceError(c.text, notice);
    When(!Blank(n.amount) && ParseAmount(n.amount).None?, Warning(page, item, "amount", "invalid_amount"))
    + When(!Blank(n.posted) && ParseTime(c, n.posted).None?, Warning(page, item, "posted_at", "invalid_time"))
    + When(!Blank(n.deadline) && ParseTime(c, n.deadline).None?, Warning(page, item, "deadline", "invalid_time"))
    + When(missing.Some?, Warning(page, item, GetOr(missing, ""), "missing_required"))
    + When(notice.region == "", Warning(page, item, "region", "unavailable"))
  }

  /** What one item contributes: at most one notice, and its warnings. */
  function ItemResult(c: Codec, category: string, raw: string, page: nat, item: nat): (seq<Notice>, seq<Warning>) {
    match c.decode(raw)
    case None => ([], [Warning(page, item, "item", "malformed_item")])
    case Some(n) =>
      (if Accepted(c, category, raw, n) then [NoticeOf(c, category, raw, n)] else [],
       WarningsOf(c, category, raw, n, page, item))
  }

  function PageResult(c: Codec, category: string, items: seq<string>, page: nat): (seq<Notice>, seq<Warning>) {
    if items == [] then ([], [])
    else
      var (notices, warnings) := PageResult(c, category, items[..|items| - 1], page);
      var (more, warned) := ItemResult(c, category, items[|items| - 1], page, |items|);
      (notices + more, warnings + warned)
  }

  lemma WarningsNameTheItem(c: Codec, category: string, raw: string, n: ApiNotice, page: nat, item: nat)
    ensures forall w <- WarningsOf(c, category, raw, n, page, item) :: w.page == page && w.item == item
  {
    hide ParseTime, ParseAmount, SourceError, Blank, NoticeOf;
  }

  /** A refused item is warned about. */
  lemma RefusedIsWarned(c: Codec, category: string, raw: string, n: ApiNotice, page: nat, item: nat)
    requires !Accepted(c, category, raw, n)
    ensures WarningsOf(c, category, raw, n, page, item) != []
  {
    hide ValidSource, ParseTime, ParseAmount, SourceError, Blank, NoticeOf;
    UnreadableAmountIsNotBlank(n.amount);
    UnreadableTimeIsNotBlank(c, n.posted);
    UnreadableTimeIsNotBlank(c, n.deadline);
    InvalidHasError(c.text, NoticeOf(c, category, raw, n));
  }

  /** Every item becomes one valid notice, or at least one warning names its page and position. */
  lemma ItemIsAccountedFor(c: Codec, category: string, raw: string, page: nat, item: nat)
    ensures var (notices, warnings) := ItemResult(c, category, raw, page, item);
      && |notices| <= 1
      && (notices == [] ==> warnings != [])
      && (forall n <- notices :: ValidSource(c.text, n) && n.category == category && 0 <= n.amount <= MAX_INT64)
      && (forall w <- warnings :: w.page == page && w.item == item)
  {
    hide ValidSource, ParseTime, ParseAmount, WarningsOf;
    match c.decode(raw)
    case None =>
    case Some(n) =>
      AmountInRange(n.amount);
      WarningsNameTheItem(c, category, raw, n, page, item);
      if !Accepted(c, category, raw, n) {
        RefusedIsWarned(c, category, raw, n, page, item);
      }
  }

  /** Field by field, the notice that an item says. */
  ghost predicate ReadsAs(c: Codec, category: string, raw: string, api: ApiNotice, n: Notice) {
    && n.category == category && n.number == api.number && n.sequence == api.sequence
    && n.title == c.text.Normalize(api.title) && n.agency == c.text.Normalize(api.agency)
    && n.region == c.text.Normalize(api.region) && n.url == c.text.Normalize(api.url)
    && ParseAmount(api.amount) == Some(n.amount)
    && ParseTime(c, api.posted) == Some(n.posted) && ParseTime(c, api.deadline) == Some(n.deadline)
    && n.raw == c.scrub(raw)
  }

  /** The notice is what this item says. */
  ghost predicate ItemReads(c: Codec, category: string, raw: string, n: Notice) {
    c.decode(raw).Some? && ReadsAs(c, category, raw, c.decode(raw).value, n)
  }

  /**
   An item becomes a notice exactly when it decodes, its amount and times can be read, the category is
   known, and number, sequence and title are not blank; the notice is then what it says, field by field.
   */
  lemma ItemBecomes(c: Codec, category: string, raw: string, page: nat, item: nat)
    ensures var (notices, warnings) := ItemResult(c, category, raw, page, item);
      && (c.decode(raw).None? ==> notices == [] && warnings == [Warning(page, item, "item", "malformed_item")])
      && (c.decode(raw).Some? ==> var api := c.decode(raw).value;
            (notices != [] <==>
               && ParseAmount(api.amount).Some? && ParseTime(c, api.posted).Some? && ParseTime(c, api.deadline).Some?
               && category in [CONSTRUCTION, SERVICE, GOODS, FOREIGN]
               && c.text.Normalize(api.number) != "" && c.text.Normalize(api.sequence) != ""
               && c.text.Normalize(c.text.Normalize(api.title)) != ""))
      && (forall n <- notices :: ItemReads(c, category, raw, n))
  {
    hide ParseTime, ParseAmount, WarningsOf;
  }

  /** Each warning of a decoded item is there exactly when its fault is. */
  lemma WarningsAreExact(c: Codec, category: string, raw: string, page: nat, item: nat, field: string, code: string)
    requires c.decode(raw).Some?
    ensures var api := c.decode(raw).value;
      var missing := SourceError(c.text, NoticeOf(c, category, raw, api));
      Warning(page, item, field, code) in ItemResult(c, category, raw, page, item).1 <==>
        || (field == "amount" && code == "invalid_amount" && ParseAmount(api.amount).None?)
        || (field == "posted_at" && code == "invalid_time" && ParseTime(c, api.posted).None?)
        || (field == "deadline" && code == "invalid_time" && ParseTime(c, api.deadline).None?)
        || (code == "missing_required" && missing == Some(field))
        || (field == "region" && code == "unavailable" && c.text.Normalize(api.region) == "")
  {
    hide ParseTime, ParseAmount, SourceError, Blank, Accepted;
    var api := c.decode(raw).value;
    UnreadableAmountIsNotBlank(api.amount);
    UnreadableTimeIsNotBlank(c, api.posted);
    UnreadableTimeIsNotBlank(c, api.deadline);
  }

  lemma UnreadableTimeIsNotBlank(c: Codec, s: string)
    ensures ParseTime(c, s).None? ==> !Blank(s)
  {
  }

  lemma InvalidHasError(t: Text, n: Notice)
    ensures ValidSource(t, n) <==> SourceError(t, n).None?
  {
  }

  // ---- pages ----

  datatype Response = RequestFailed | BadItems | Page(items: seq<string>, total: nat)

  datatype Outcome =
    | Listed(notices: seq<Notice>)
    | Cancelled | EncodedKey | Unsupported | Unavailable | Malformed
    | Incomplete(page: nat, expected: nat, received: nat, total: nat)
    | Repeated(page: nat, first: nat)
    | TooManyPages(page: nat, max: nat, total: nat)

  function PageSize(asked: int): (size: nat)
    ensures 1 <= size <= 999
    ensures 1 <= asked <= 999 ==> size == asked
    ensures asked < 1 ==> size == 100
  {
    if asked < 1 then 100 else if asked > 999 then 999 else asked
  }

  /** max(1, ceil(total / size)) */
  function PageCount(total: nat, size: nat): nat
    requires size > 0
  {
    if total == 0 then 1 else (total + size - 1) / size
  }

  function Expected(total: nat, size: nat, page: nat): nat
    requires page >= 1
  {
    var rest := total - (page - 1) * size;
    if rest > size then size else if rest < 0 then 0 else rest
  }

  function ExpectedUpTo(total: nat, size: nat, n: nat): nat {
    if n == 0 then 0 else ExpectedUpTo(total, size, n - 1) + Expected(total, size, n)
  }

  lemma {:induction false} ExpectedSoFar(total: nat, size: nat, n: nat)
    ensures ExpectedUpTo(total, size, n) == if n * size <= total then n * size else total
  {
    if n > 0 {
      ExpectedSoFar(total, size, n - 1);
      assert n * size == (n - 1) * size + size;
    }
  }

  lemma PageCountBounds(total: nat, size: nat)
    requires size > 0
    ensures var n := PageCount(total, size); n >= 1 && n * size >= total && (n == 1 || (n - 1) * size < total)
  {
    if total > 0 {
      var n := (total + size - 1) / size;
      assert total + size - 1 == n * size + (total + size - 1) % size;
      assert (n - 1) * size == n * size - size;
    }
  }

  /** The pages that are asked for are expected to bring exactly the announced total. */
  lemma ExpectedSumsToTotal(total: nat, size: nat)
    requires size > 0
    ensures ExpectedUpTo(total, size, PageCount(total, size)) == total
  {
    ExpectedSoFar(total, size, PageCount(total, size));
    PageCountBounds(total, size);
  }

  lemma Grows(a: int, b: int, size: nat)
    ensures a <= b ==> a * size <= b * size
  {
  }

  lemma PageCountIs(total: nat, size: nat, n: nat)
    requires size > 0 && n >= 1 && (total == 0 || n * size >= total)
      && (n == 1 || (total > 0 && (n - 1) * size < total))
    ensures n == PageCount(total, size)
  {
    PageCountBounds(total, size);
    var m := PageCount(total, size);
    assert n >= m by {
      Grows(n, m - 1, size);
    }
    assert m >= n by {
      Grows(m, n - 1, size);
    }
  }

  /** The source answers page p with at least the items expected of it. */
  ghost predicate Delivered(pages: nat -> Response, total: nat, size: nat, p: nat) {
    p >= 1 && pages(p).Page? && |pages(p).items| >= Expected(total, size, p)
  }

  ghost predicate SamePage<S>(pages: nat -> Response, sign: seq<string> -> S, p: nat, q: nat) {
    pages(p).Page? && pages(q).Page? && pages(p).items != []
      && pages(q).items != [] && sign(pages(p).items) == sign(pages(q).items)
  }

  /** Pages 1 to n arrive in full and no nonempty one repeats an earlier one. */
  ghost predicate GoodPages<S>(pages: nat -> Response, sign: seq<string> -> S, total: nat, size: nat, n: nat) {
    && (forall p :: 1 <= p <= n ==> Delivered(pages, total, size, p))
    && (forall p, q :: 1 <= p < q <= n ==> !SamePage(pages, sign, p, q))
  }

  ghost function ResultUpTo(c: Codec, category: string, pages: nat -> Response, n: nat): (seq<Notice>, seq<Warning>) {
    if n == 0 || !pages(n).Page? then ([], [])
    else
      var (notices, warnings) := ResultUpTo(c, category, pages, n - 1);
      var (more, warned) := PageResult(c, category, pages(n).items, n);
      (notices + more, warnings + warned)
  }

  /** The pages seen so far, by signature. */
  ghost predicate Seen<S>(pages: nat -> Response, sign: seq<string> -> S, seen: map<S, nat>, n: nat) {
    && (forall p :: 1 <= p <= n && pages(p).Page? && pages(p).items != [] ==> sign(pages(p).items) in seen)
    && (forall g <- seen ::
      1 <= seen[g] <= n && pages(seen[g]).Page? && pages(seen[g]).items != [] && sign(pages(seen[g]).items) == g)
  }

  lemma NoItems(c: Codec, category: string, page: nat)
    ensures PageResult(c, category, [], page) == ([], [])
  {
  }

  lemma PageNext(c: Codec, category: string, items: seq<string>, page: nat, i: nat)
    requires i < |items|
    ensures var (notices, warnings) := PageResult(c, category, items[..i], page);
      var (more, warned) := ItemResult(c, category, items[i], page, i + 1);
      PageResult(c, category, items[..i + 1], page) == (notices + more, warnings + warned)
  {
    hide ItemResult;
    assert items[..i + 1][..i] == items[..i];
  }

  method ConvertPage(c: Codec, category: string, items: seq<string>, page: nat)
    returns (notices: seq<Notice>, warnings: seq<Warning>)
    ensures (notices, warnings) == PageResult(c, category, items, page)
  {
    hide Accepted, WarningsOf, NoticeOf, PageResult;
    NoItems(c, category, page);
    assert items[..0] == [];
    notices, warnings := [], [];
    for i := 0 to |items|
      invariant (notices, warnings) == PageResult(c, category, items[..i], page)
    {
      PageNext(c, category, items, page, i);
      assert notices + [] == notices;
      match c.decode(items[i])
      case None =>
        warnings := warnings + [Warning(page, i + 1, "item", "malformed_item")];
      case Some(n) =>
        warnings := warnings + WarningsOf(c, category, items[i], n, page, i + 1);
        if Accepted(c, category, items[i], n) {
          notices := notices + [NoticeOf(c, category, items[i], n)];
        }
    }
    assert items[..|items|] == items;
  }

  /** The pages before p came in full, and p is needed. */
  ghost predicate GoodBefore<S>(pages: nat -> Response, sign: seq<string> -> S, size: nat, p: nat)
    requires size > 0
  {
    p == 1 ||
    (p > 1 && pages(1).Page? && p <= PageCount(pages(1).total, size)
     && GoodPages(pages, sign, pages(1).total, size, p - 1))
  }

  /** What the outcome says about the source. */
  ghost predicate ListMeans<S>(c: Codec, category: string, pages: nat -> Response, sign: seq<string> -> S, size: nat,
                               maxPages: nat, r: Outcome, warnings: seq<Warning>, requests: nat)
    requires size > 0
  {
    match r
    case Listed(notices) =>
      && Complete(pages, sign, size, maxPages) && requests == PageCount(pages(1).total, size)
      && (notices, warnings) == ResultUpTo(c, category, pages, requests)
    case Unavailable => requests >= 1 && pages(requests).RequestFailed? && GoodBefore(pages, sign, size, requests)
    case Malformed => requests >= 1 && pages(requests).BadItems? && GoodBefore(pages, sign, size, requests)
    case Incomplete(p, expected, received, total) =>
      && p == requests >= 1 && GoodBefore(pages, sign, size, p) && pages(1).Page? && total == pages(1).total
      && expected == Expected(total, size, p) && pages(p).Page? && received == |pages(p).items| < expected
    case Repeated(p, first) =>
      p == requests > first >= 1 && GoodBefore(pages, sign, size, p) && SamePage(pages, sign, first, p)
    case TooManyPages(p, max, total) =>
      && max == maxPages == requests && p == maxPages + 1 && pages(1).Page? && total == pages(1).total
      && PageCount(pages(1).total, size) > maxPages && GoodPages(pages, sign, pages(1).total, size, maxPages)
    case _ => false
  }

  /** The source delivers everything it announced, once, within the page limit. */
  ghost predicate Complete<S>(pages: nat -> Response, sign: seq<string> -> S, size: nat, maxPages: nat)
    requires size > 0
  {
    && pages(1).Page? && PageCount(pages(1).total, size) <= maxPages
    && GoodPages(pages, sign, pages(1).total, size, PageCount(pages(1).total, size))
  }

  /** So a listing succeeds exactly when the source is complete. */
  lemma ListSucceedsExactly<S>(c: Codec, category: string, pages: nat -> Response, sign: seq<string> -> S, size: nat,
                               maxPages: nat, r: Outcome, warnings: seq<Warning>, requests: nat)
    requires size > 0 && maxPages >= 1 && ListMeans(c, category, pages, sign, size, maxPages, r, warnings, requests)
    ensures r.Listed? <==> Complete(pages, sign, size, maxPages)
  {
    hide SamePage, ResultUpTo, PageCount;
    if Complete(pages, sign, size, maxPages) {
      FirstPageNeeded(pages(1).total, size);
      if 1 <= requests <= PageCount(pages(1).total, size) {
        assert Delivered(pages, pages(1).total, size, requests);
      }
    }
  }

  lemma FirstPageNeeded(total: nat, size: nat)
    requires size > 0
    ensures PageCount(total, size) >= 1
  {
    PageCountBounds(total, size);
  }

  /** Before page `page` is asked for: the earlier ones are good, and more are needed. */
  ghost predicate Before<S>(pages: nat -> Response, sign: seq<string> -> S, size: nat, page: nat, total: int,
                            seen: map<S, nat>) {
    if page <= 1 then page == 1 && total == -1 && seen == map[]
    else
      && size >= 1 && pages(1).Page? && total == pages(1).total > 0 && (page - 1) * size < total
      && GoodPages(pages, sign, total, size, page - 1) && Seen(pages, sign, seen, page - 1)
  }

  lemma NeededPage(total: nat, size: nat, page: nat)
    requires size > 0 && page >= 1 && (page == 1 || (page - 1) * size < total)
    ensures page <= PageCount(total, size)
  {
    PageCountBounds(total, size);
    var n := PageCount(total, size);
    Grows(n, page - 1, size);
  }

  lemma BeforeIsGood<S>(pages: nat -> Response, sign: seq<string> -> S, size: nat, page: nat, total: int,
                        seen: map<S, nat>)
    requires size > 0 && Before(pages, sign, size, page, total, seen)
    ensures page >= 1 && GoodBefore(pages, sign, size, page)
    ensures page > 1 ==> pages(1).Page? && total == pages(1).total
    ensures page > 1 ==>
      PageCount(pages(1).total, size) >= page && GoodPages(pages, sign, pages(1).total, size, page - 1)
  {
    hide GoodPages, Seen, PageCount;
    if page > 1 {
      NeededPage(total, size, page);
    }
  }

  /** A signature that was seen belongs to an earlier nonempty page; an unseen one to none. */
  lemma SeenMeans<S>(pages: nat -> Response, sign: seq<string> -> S, size: nat, page: nat, total: int,
                     seen: map<S, nat>)
    requires Before(pages, sign, size, page, total, seen) && pages(page).Page? && pages(page).items != []
    ensures sign(pages(page).items) in seen ==>
      var first := seen[sign(pages(page).items)]; 1 <= first < page && SamePage(pages, sign, first, page)
    ensures sign(pages(page).items) !in seen ==> forall p :: 1 <= p < page ==> !SamePage(pages, sign, p, page)
  {
  }

  lemma NextIsGood<S>(pages: nat -> Response, sign: seq<string> -> S, size: nat, page: nat, total: int,
                      seen: map<S, nat>)
    requires size > 0 && Before(pages, sign, size, page, total, seen) && pages(page).Page? && pages(1).Page?
    requires |pages(page).items| >= Expected(pages(1).total, size, page)
    requires pages(page).items == [] || sign(pages(page).items) !in seen
    ensures GoodPages(pages, sign, pages(1).total, size, page)
  {
    if pages(page).items != [] {
      SeenMeans(pages, sign, size, page, total, seen);
    }
    assert Delivered(pages, pages(1).total, size, page);
    forall p, q | 1 <= p < q <= page ensures !SamePage(pages, sign, p, q) {
    }
  }

  lemma NextIsSeen<S>(pages: nat -> Response, sign: seq<string> -> S, size: nat, page: nat, total: int,
                      seen: map<S, nat>)
    requires Before(pages, sign, size, page, total, seen) && pages(page).Page?
    ensures Seen(pages, sign, if pages(page).items != [] then seen[sign(pages(page).items) := page] else seen, page)
  {
  }

  /** One page of the loop: request it, check it, convert it; `stop` is the listing's end. */
  method ListPage<S(==)>(c: Codec, category: string, pages: nat -> Response, sign: seq<string> -> S, size: nat,
                         page: nat, first: int, seen: map<S, nat>, ghost maxPages: nat,
                         ghost before: (seq<Notice>, seq<Warning>))
    returns (stop: Option<Outcome>, total: int, seen': map<S, nat>, notices: seq<Notice>, warnings: seq<Warning>)
    requires size > 0 && page <= maxPages && Before(pages, sign, size, page, first, seen)
    requires before == ResultUpTo(c, category, pages, page - 1)
    ensures stop.Some? ==>
      !stop.value.Listed? && ListMeans(c, category, pages, sign, size, maxPages, stop.value, before.1 + warnings, page)
    ensures stop.None? ==> pages(1).Page? && total == pages(1).total
    ensures stop.None? ==> GoodPages(pages, sign, pages(1).total, size, page) && Seen(pages, sign, seen', page)
    ensures stop.None? ==> (before.0 + notices, before.1 + warnings) == ResultUpTo(c, category, pages, page)
  {
    hide GoodPages, Seen, PageCount, ResultUpTo;
    BeforeIsGood(pages, sign, size, page, first, seen);
    stop, total, seen', notices, warnings := None, first, seen, [], [];
    var payload := pages(page);
    if !payload.Page? {
      stop := Some(if payload.RequestFailed? then Unavailable else Malformed);
      return;
    }
    if total < 0 {
      total := payload.total;
    }
    var expected := Expected(total, size, page);
    if |payload.items| < expected {
      warnings := [Warning(page, 0, "items", if payload.items == [] then "empty_page" else "incomplete_page")];
      stop := Some(Incomplete(page, expected, |payload.items|, total));
      return;
    }
    var signature := sign(payload.items);
    if payload.items != [] {
      SeenMeans(pages, sign, size, page, first, seen);
      if signature in seen {
        stop := Some(Repeated(page, seen[signature]));
        return;
      }
      seen' := seen[signature := page];
    }
    NextIsGood(pages, sign, size, page, first, seen);
    NextIsSeen(pages, sign, size, page, first, seen);
    notices, warnings := ConvertPage(c, category, payload.items, page);
    NextResult(c, category, pages, page);
  }

  lemma NextResult(c: Codec, category: string, pages: nat -> Response, n: nat)
    requires n >= 1 && pages(n).Page?
    ensures var (notices, warnings) := ResultUpTo(c, category, pages, n - 1);
      var (more, warned) := PageResult(c, category, pages(n).items, n);
      ResultUpTo(c, category, pages, n) == (notices + more, warnings + warned)
  {
  }

  lemma {:induction false} PageReads(c: Codec, category: string, items: seq<string>, page: nat)
    ensures forall n <- PageResult(c, category, items, page).0 ::
      exists i :: 0 <= i < |items| && ItemReads(c, category, items[i], n)
    decreases |items|
  {
    if items != [] {
      hide ItemResult, ItemReads;
      var last := |items| - 1;
      PageReads(c, category, items[..last], page);
      ItemBecomes(c, category, items[last], page, |items|);
      forall n | n in PageResult(c, category, items, page).0
        ensures exists i :: 0 <= i < |items| && ItemReads(c, category, items[i], n)
      {
        if n in PageResult(c, category, items[..last], page).0 {
          var i :| 0 <= i < last && ItemReads(c, category, items[..last][i], n);
          assert items[..last][i] == items[i];
        }
      }
    }
  }

  /** Item i of page p says this notice. */
  ghost predicate SaidAt(c: Codec, category: string, pages: nat -> Response, p: int, i: int, n: Notice) {
    p >= 1 && pages(p).Page? && 0 <= i < |pages(p).items| && ItemReads(c, category, pages(p).items[i], n)
  }

  /** Every notice of the first k pages is what one of their items says. */
  lemma {:induction false} NoticesAreSaid(c: Codec, category: string, pages: nat -> Response, k: nat)
    ensures forall n <- ResultUpTo(c, category, pages, k).0 ::
      exists p, i :: p <= k && SaidAt(c, category, pages, p, i, n)
  {
    if k > 0 && pages(k).Page? {
      hide PageResult, ItemReads;
      NoticesAreSaid(c, category, pages, k - 1);
      PageReads(c, category, pages(k).items, k);
      forall n | n in ResultUpTo(c, category, pages, k).0
        ensures exists p, i :: p <= k && SaidAt(c, category, pages, p, i, n)
      {
        if n in ResultUpTo(c, category, pages, k - 1).0 {
          var p, i :| p <= k - 1 && SaidAt(c, category, pages, p, i, n);
        } else {
          var i :| 0 <= i < |pages(k).items| && ItemReads(c, category, pages(k).items[i], n);
          assert SaidAt(c, category, pages, k, i, n);
        }
      }
    }
  }

  /** The notices of earlier pages come first, and on a page those of earlier items. */
  lemma {:induction false} EarlierComeFirst(c: Codec, category: string, pages: nat -> Response, p: nat, k: nat, i: nat)
    requires 1 <= p <= k && (forall q :: 1 <= q <= k ==> pages(q).Page?) && i < |pages(p).items|
    ensures var before := ResultUpTo(c, category, pages, p - 1).0 + PageResult(c, category, pages(p).items[..i], p).0;
      before + ItemResult(c, category, pages(p).items[i], p, i + 1).0 <= ResultUpTo(c, category, pages, k).0
    decreases k
  {
    hide ItemResult;
    if p < k {
      EarlierComeFirst(c, category, pages, p, k - 1, i);
    } else {
      EarlierItems(c, category, pages(p).items, p, i);
    }
  }

  lemma {:induction false} EarlierItems(c: Codec, category: string, items: seq<string>, page: nat, i: nat)
    requires i < |items|
    ensures PageResult(c, category, items[..i], page).0 + ItemResult(c, category, items[i], page, i + 1).0
      <= PageResult(c, category, items, page).0
    decreases |items|
  {
    hide ItemResult;
    if i < |items| - 1 {
      EarlierItems(c, category, items[..|items| - 1], page, i);
      assert items[..|items| - 1][..i] == items[..i];
    }
  }

  /**
   The listing loop. It succeeds exactly when the source delivers pages 1 to max(1, ceil(total/size))
   in full and without repetition, within the page limit, where `total` is the first page's; then it
   returns what all their items became. Otherwise it returns no notice and says what went wrong first.
   */
  method List<S(==)>(c: Codec, category: string, pages: nat -> Response, sign: seq<string> -> S,
                     asked: int, maxPages: nat, cancelled: bool, encodedKey: bool)
    returns (r: Outcome, warnings: seq<Warning>, requests: nat)
    requires maxPages >= 1
    ensures requests <= maxPages
    ensures cancelled || encodedKey || category !in [CONSTRUCTION, SERVICE, GOODS, FOREIGN] ==>
      requests == 0 && r == (if cancelled then Cancelled else if encodedKey then EncodedKey else Unsupported)
    ensures !cancelled && !encodedKey && category in [CONSTRUCTION, SERVICE, GOODS, FOREIGN] ==>
      ListMeans(c, category, pages, sign, PageSize(asked), maxPages, r, warnings, requests)
      && (r.Listed? <==> Complete(pages, sign, PageSize(asked), maxPages))
    ensures r.Listed? ==> forall n <- r.notices :: exists p, i :: SaidAt(c, category, pages, p, i, n)
  {
    hide GoodPages, Seen, PageCount, ResultUpTo, ListMeans, Complete, SaidAt;
    warnings, requests := [], 0;
    if cancelled {
      return Cancelled, warnings, 0;
    }
    if encodedKey {
      return EncodedKey, warnings, 0;
    }
    if category !in [CONSTRUCTION, SERVICE, GOODS, FOREIGN] {
      return Unsupported, warnings, 0;
    }
    var size := PageSize(asked);
    var out: seq<Notice>, seen: map<S, nat>, total, page := [], map[], -1, 1;
    NoResult(c, category, pages);
    while true
      invariant 1 <= page <= maxPages + 1 && requests == page - 1
      invariant Before(pages, sign, size, page, total, seen)
      invariant (out, warnings) == ResultUpTo(c, category, pages, page - 1)
      decreases maxPages + 1 - page
    {
      if page > maxPages {
        TooMany(c, category, pages, sign, size, maxPages, total, seen, warnings);
        r := TooManyPages(page, maxPages, total);
        ListSucceedsExactly(c, category, pages, sign, size, maxPages, r, warnings, requests);
        return;
      }
      requests := requests + 1;
      var stop, notices, warned;
      ghost var firstTotal, before := total, (out, warnings);
      stop, total, seen, notices, warned :=
        ListPage(c, category, pages, sign, size, page, total, seen, maxPages, before);
      warnings := warnings + warned;
      if stop.Some? {
        r := stop.value;
        ListSucceedsExactly(c, category, pages, sign, size, maxPages, r, warnings, requests);
        return;
      }
      out := out + notices;
      if total == 0 || page * size >= total {
        r := Listed(out);
        NoticesAreSaid(c, category, pages, page);
        AllListed(c, category, pages, sign, size, maxPages, page, out, warnings);
        ListSucceedsExactly(c, category, pages, sign, size, maxPages, r, warnings, requests);
        return;
      }
      page := page + 1;
    }
  }

  lemma NoResult(c: Codec, category: string, pages: nat -> Response)
    ensures ResultUpTo(c, category, pages, 0) == ([], [])
  {
  }

  lemma TooMany<S>(c: Codec, category: string, pages: nat -> Response, sign: seq<string> -> S, size: nat, maxPages: nat,
                   total: int, seen: map<S, nat>, warnings: seq<Warning>)
    requires size > 0 && maxPages >= 1 && Before(pages, sign, size, maxPages + 1, total, seen)
    ensures total >= 0
    ensures ListMeans(c, category, pages, sign, size, maxPages, TooManyPages(maxPages + 1, maxPages, total), warnings,
                      maxPages)
  {
    hide GoodPages, Seen, PageCount, ResultUpTo;
    BeforeIsGood(pages, sign, size, maxPages + 1, total, seen);
  }

  lemma AllListed<S>(c: Codec, category: string, pages: nat -> Response, sign: seq<string> -> S, size: nat,
                     maxPages: nat, page: nat, out: seq<Notice>, warnings: seq<Warning>)
    requires size > 0 && 1 <= page <= maxPages && pages(1).Page? && GoodPages(pages, sign, pages(1).total, size, page)
    requires (page == 1 || (page - 1) * size < pages(1).total) && (pages(1).total == 0 || page * size >= pages(1).total)
    requires (out, warnings) == ResultUpTo(c, category, pages, page)
    ensures ListMeans(c, category, pages, sign, size, maxPages, Listed(out), warnings, page)
  {
    hide GoodPages, PageCount, ResultUpTo;
    PageCountIs(pages(1).total, size, page);
  }

  // ---- what a successful listing contains ----

  lemma {:induction false} PageKeepsItem(c: Codec, category: string, items: seq<string>, page: nat, i: nat)
    requires i < |items|
    ensures var (notices, warnings) := PageResult(c, category, items, page);
      var (one, warned) := ItemResult(c, category, items[i], page, i + 1);
      (forall n <- one :: n in notices) && (forall w <- warned :: w in warnings)
    decreases |items|
  {
    hide ItemResult;
    if i < |items| - 1 {
      PageKeepsItem(c, category, items[..|items| - 1], page, i);
    }
  }

  lemma {:induction false} ListKeepsPage(c: Codec, category: string, pages: nat -> Response, n: nat, p: nat)
    requires 1 <= p <= n && forall q :: 1 <= q <= n ==> pages(q).Page?
    ensures var (notices, warnings) := ResultUpTo(c, category, pages, n);
      var (one, warned) := PageResult(c, category, pages(p).items, p);
      (forall n <- one :: n in notices) && (forall w <- warned :: w in warnings)
    decreases n
  {
    hide PageResult;
    if p < n {
      ListKeepsPage(c, category, pages, n - 1, p);
    }
  }

  /** In a successful listing no item is lost: its notice is in the list, or a warning names its page and position. */
  lemma EveryItemIsAccountedFor(c: Codec, category: string, pages: nat -> Response, n: nat, p: nat, i: nat)
    requires 1 <= p <= n && (forall q :: 1 <= q <= n ==> pages(q).Page?) && i < |pages(p).items|
    ensures var (notices, warnings) := ResultUpTo(c, category, pages, n);
      var (one, warned) := ItemResult(c, category, pages(p).items[i], p, i + 1);
      (|one| == 1 && one[0] in notices) || exists w <- warnings :: w.page == p && w.item == i + 1
  {
    hide ItemResult, PageResult, ResultUpTo;
    ItemIsAccountedFor(c, category, pages(p).items[i], p, i + 1);
    PageKeepsItem(c, category, pages(p).items, p, i);
    ListKeepsPage(c, category, pages, n, p);
    var (one, warned) := ItemResult(c, category, pages(p).items[i], p, i + 1);
    if one == [] {
      assert warned[0] in warned;
    } else {
      assert one[0] in one;
    }
  }

  lemma {:induction false} PageNoticesAreValid(c: Codec, category: string, items: seq<string>, page: nat)
    ensures forall n <- PageResult(c, category, items, page).0 ::
      ValidSource(c.text, n) && n.category == category && 0 <= n.amount <= MAX_INT64
    decreases |items|
  {
    hide ItemResult, ValidSource;
    if items != [] {
      PageNoticesAreValid(c, category, items[..|items| - 1], page);
      ItemIsAccountedFor(c, category, items[|items| - 1], page, |items|);
    }
  }

  /** Every listed notice is one the store accepts. */
  lemma {:induction false} ListedNoticesAreValid(c: Codec, category: string, pages: nat -> Response, n: nat)
    ensures forall x <- ResultUpTo(c, category, pages, n).0 ::
      ValidSource(c.text, x) && x.category == category && 0 <= x.amount <= MAX_INT64
  {
    hide PageResult, ValidSource;
    if n > 0 && pages(n).Page? {
      ListedNoticesAreValid(c, category, pages, n - 1);
      PageNoticesAreValid(c, category, pages(n).items, n);
    }
  }
}
