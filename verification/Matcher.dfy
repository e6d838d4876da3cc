/** The condition matcher: `MatchAt` and what it decides. */
module Matcher {
  import opened Basics
  import opened Decimals
  import opened Strings
  import opened Notices
  import DueTimes

  datatype Rule = Rule(
    includeAny: seq<string>, includeAll: seq<string>, exclude: seq<string>, categories: seq<string>,
    agencies: seq<string>, regions: seq<string>, minAmount: Option<int>, maxAmount: Option<int>,
    weekdays: seq<int>, withinDays: Option<int>)

  datatype Reason =
    | IncludeAny | IncludeAll | Excluded | InCategory | InAgency | InRegion | MinAmount | MaxAmount
    | DeadlineWeekday | DeadlineWithinDays | InvalidDeadline

  datatype Field = Title | Agency | Region | Category | Amount | Deadline

  datatype RuleValue = Term(term: string) | Number(number: int) | Days(days: seq<int>)

  /** One entry of the result's reasons and details, which always correspond. */
  datatype Detail = Detail(code: Reason, field: Field, value: RuleValue)

  datatype Result = Result(matched: bool, details: seq<Detail>)

  predicate Contains(t: Text, value: string, term: string) {
    HasSubstring(t.fold(t.Normalize(value)), t.fold(t.Normalize(term)))
  }

  predicate HasTerms(terms: seq<string>) {
    exists term <- terms :: !Blank(term)
  }

  // ---- searching terms ----

  /** The first of title, agency and region that contains the term. */
  function KeywordField(t: Text, n: Notice, term: string): Option<Field> {
    if Contains(t, n.title, term) then Some(Title)
    else if Contains(t, n.agency, term) then Some(Agency)
    else if Contains(t, n.region, term) then Some(Region)
    else None
  }

  predicate Hit(t: Text, n: Notice, term: string) {
    !Blank(term) && KeywordField(t, n, term).Some?
  }

  /** The first nonblank term that occurs in the notice. */
  function KeywordMatch(t: Text, n: Notice, terms: seq<string>): (r: Option<(Field, string)>)
    ensures r.Some? <==> exists term <- terms :: Hit(t, n, term)
    ensures r.Some? ==> r.value.1 in terms && Hit(t, n, r.value.1) && KeywordField(t, n, r.value.1) == Some(r.value.0)
  {
    if terms == [] then None
    else if Hit(t, n, terms[0]) then Some((KeywordField(t, n, terms[0]).value, terms[0]))
    else KeywordMatch(t, n, terms[1..])
  }

  /** The first nonblank term contained in the value. */
  function MatchingTerm(t: Text, value: string, terms: seq<string>): (r: Option<string>)
    ensures r.Some? <==> exists term <- terms :: !Blank(term) && Contains(t, value, term)
    ensures r.Some? ==> r.value in terms && !Blank(r.value) && Contains(t, value, r.value)
  {
    if terms == [] then None
    else if !Blank(terms[0]) && Contains(t, value, terms[0]) then Some(terms[0])
    else MatchingTerm(t, value, terms[1..])
  }

  // ---- the deadline window, in 64-bit nanoseconds ----

  const DAY: int := 86_400_000_000_000

  /** The value of a 64-bit product. */
  function Wrap(n: int): int {
    var m := n % 0x1_0000_0000_0000_0000;
    if m <= MAX_INT64 then m else m - 0x1_0000_0000_0000_0000
  }

  /** time.Time.Sub saturates. */
  function Since(later: Time, earlier: Time): int {
    var d := later - earlier;
    if d > MAX_INT64 then MAX_INT64 else if d < -MAX_INT64 - 1 then -MAX_INT64 - 1 else d
  }

  predicate WithinDays(now: Time, deadline: Time, days: int) {
    !(deadline < now || Since(deadline, now) > Wrap(days * DAY))
  }

  // ---- MatchAt ----

  datatype Check = Reject | Invalid(detail: Detail) | Pass(details: seq<Detail>)

  datatype Progress = Stopped(result: Result) | Going(details: seq<Detail>)

  function Then(p: Progress, c: Check): Progress {
    match p
    case Stopped(_) => p
    case Going(details) =>
      match c
      case Reject => Stopped(Result(false, []))
      case Invalid(detail) => Stopped(Result(false, [detail]))
      case Pass(more) => Going(details + more)
  }

  function IncludeAnyCheck(t: Text, n: Notice, rule: Rule): Check {
    if !HasTerms(rule.includeAny) then Pass([])
    else
      match KeywordMatch(t, n, rule.includeAny)
      case None => Reject
      case Some((field, term)) => Pass([Detail(IncludeAny, field, Term(term))])
  }

  function IncludeAllCheck(t: Text, n: Notice, terms: seq<string>): Check {
    if terms == [] then Pass([])
    else
      var term := terms[|terms| - 1];
      match IncludeAllCheck(t, n, terms[..|terms| - 1])
      case Pass(details) =>
        if Blank(term) then Pass(details)
        else if KeywordField(t, n, term).None? then Reject
        else Pass(details + [Detail(IncludeAll, KeywordField(t, n, term).value, Term(term))])
      case other => other
  }

  function TermCheck(t: Text, value: string, terms: seq<string>, code: Reason, field: Field): Check {
    if !HasTerms(terms) then Pass([])
    else
      match MatchingTerm(t, value, terms)
      case None => Reject
      case Some(term) => Pass([Detail(code, field, Term(term))])
  }

  function CategoryCheck(n: Notice, rule: Rule): Check {
    if rule.categories == [] then Pass([])
    else if n.category !in rule.categories then Reject
    else Pass([Detail(InCategory, Category, Term(n.category))])
  }

  function MinCheck(n: Notice, rule: Rule): Check {
    match rule.minAmount
    case None => Pass([])
    case Some(min) => if n.amount < min then Reject else Pass([Detail(MinAmount, Amount, Number(min))])
  }

  function MaxCheck(n: Notice, rule: Rule): Check {
    match rule.maxAmount
    case None => Pass([])
    case Some(max) => if n.amount > max then Reject else Pass([Detail(MaxAmount, Amount, Number(max))])
  }

  /** time.Time.Weekday, in the deadline's own zone. */
  function WeekdayOf(deadline: Zoned): int {
    DueTimes.Weekday((deadline.at + deadline.offset) / DAY)
  }

  /** For a deadline in Korean time that is the weekday of its Korean calendar day. */
  lemma KoreanWeekday(at: Time)
    ensures WeekdayOf(Zoned(at, 32_400_000_000_000)) == DueTimes.Weekday(DueTimes.LocalDay(at))
  {
  }

  function WeekdayCheck(n: Notice, rule: Rule): Check {
    if rule.weekdays == [] then Pass([])
    else
      match n.deadline
      case None => Invalid(Detail(InvalidDeadline, Deadline, Days(rule.weekdays)))
      case Some(deadline) =>
        if WeekdayOf(deadline) !in rule.weekdays then Reject
        else Pass([Detail(DeadlineWeekday, Deadline, Days(rule.weekdays))])
  }

  function WithinCheck(now: Time, n: Notice, rule: Rule): Check {
    match rule.withinDays
    case None => Pass([])
    case Some(days) =>
      match n.deadline
      case None => Invalid(Detail(InvalidDeadline, Deadline, Number(days)))
      case Some(deadline) =>
        if !WithinDays(now, deadline.at, days) then Reject
        else Pass([Detail(DeadlineWithinDays, Deadline, Number(days))])
  }

  function ExcludeCheck(t: Text, n: Notice, rule: Rule): Check {
    match KeywordMatch(t, n, rule.exclude)
    case None => Pass([])
    case Some((field, term)) => Invalid(Detail(Excluded, field, Term(term)))
  }

  /** The checks on keywords, category, agency and region. */
  function TextChecked(t: Text, n: Notice, rule: Rule): Progress {
    var p := Then(Going([]), ExcludeCheck(t, n, rule));
    var p := Then(p, IncludeAnyCheck(t, n, rule));
    var p := Then(p, IncludeAllCheck(t, n, rule.includeAll));
    var p := Then(p, CategoryCheck(n, rule));
    var p := Then(p, TermCheck(t, n.agency, rule.agencies, InAgency, Agency));
    Then(p, TermCheck(t, n.region, rule.regions, InRegion, Region))
  }

  function Checked(t: Text, now: Time, n: Notice, rule: Rule): Progress {
    var p := Then(TextChecked(t, n, rule), MinCheck(n, rule));
    var p := Then(p, MaxCheck(n, rule));
    var p := Then(p, WeekdayCheck(n, rule));
    Then(p, WithinCheck(now, n, rule))
  }

  function MatchAt(t: Text, now: Time, n: Notice, rule: Rule): Result {
    match Checked(t, now, n, rule)
    case Stopped(result) => result
    case Going(details) => Result(true, details)
  }

  // ---- what it decides ----

  /** The filter's meaning: every condition that is set holds, and no excluded term occurs. */
  ghost predicate Accepts(t: Text, now: Time, n: Notice, rule: Rule) {
    && (forall term <- rule.exclude :: !Hit(t, n, term))
    && (HasTerms(rule.includeAny) ==> exists term <- rule.includeAny :: Hit(t, n, term))
    && (forall term <- rule.includeAll :: !Blank(term) ==> Hit(t, n, term))
    && (rule.categories != [] ==> n.category in rule.categories)
    && (HasTerms(rule.agencies) ==> exists term <- rule.agencies :: !Blank(term) && Contains(t, n.agency, term))
    && (HasTerms(rule.regions) ==> exists term <- rule.regions :: !Blank(term) && Contains(t, n.region, term))
    && (rule.minAmount.Some? ==> rule.minAmount.value <= n.amount)
    && (rule.maxAmount.Some? ==> n.amount <= rule.maxAmount.value)
    && (rule.weekdays != [] ==> n.deadline.Some? && WeekdayOf(n.deadline.value) in rule.weekdays)
    && (rule.withinDays.Some? ==> n.deadline.Some? && WithinDays(now, n.deadline.value.at, rule.withinDays.value))
  }

  lemma {:induction false} IncludeAllMeans(t: Text, n: Notice, terms: seq<string>)
    ensures IncludeAllCheck(t, n, terms).Pass? || IncludeAllCheck(t, n, terms).Reject?
    ensures IncludeAllCheck(t, n, terms).Pass? <==> forall term <- terms :: !Blank(term) ==> Hit(t, n, term)
  {
    if terms != [] {
      hide KeywordField;
      var init, last := terms[..|terms| - 1], terms[|terms| - 1];
      IncludeAllMeans(t, n, init);
      assert terms == init + [last];
      assert forall term :: term in terms <==> term in init || term == last;
    }
  }

  lemma MatchedIffAccepted(t: Text, now: Time, n: Notice, rule: Rule)
    ensures MatchAt(t, now, n, rule).matched <==> Accepts(t, now, n, rule)
  {
    hide Hit, KeywordField, HasTerms, Contains, WithinDays, WeekdayOf;
    IncludeAllMeans(t, n, rule.includeAll);
  }

  /** What a detail claims about the notice is true of it, and comes from the rule. */
  ghost predicate DetailHolds(t: Text, now: Time, n: Notice, rule: Rule, d: Detail) {
    match d.code
    case IncludeAny => d.value.Term? && d.value.term in rule.includeAny && FieldHas(t, n, d)
    case IncludeAll => d.value.Term? && d.value.term in rule.includeAll && FieldHas(t, n, d)
    case Excluded => d.value.Term? && d.value.term in rule.exclude && FieldHas(t, n, d)
    case InAgency => d.value.Term? && d.value.term in rule.agencies && d.field == Agency && FieldHas(t, n, d)
    case InRegion => d.value.Term? && d.value.term in rule.regions && d.field == Region && FieldHas(t, n, d)
    case InCategory => d.value == Term(n.category) && n.category in rule.categories
    case MinAmount => d.value.Number? && rule.minAmount == Some(d.value.number) && d.value.number <= n.amount
    case MaxAmount => d.value.Number? && rule.maxAmount == Some(d.value.number) && n.amount <= d.value.number
    case DeadlineWeekday => d.value == Days(rule.weekdays)
      && n.deadline.Some? && WeekdayOf(n.deadline.value) in rule.weekdays
    case DeadlineWithinDays => d.value.Number? && rule.withinDays == Some(d.value.number)
      && n.deadline.Some? && WithinDays(now, n.deadline.value.at, d.value.number)
    case InvalidDeadline => n.deadline.None? && (rule.weekdays != [] || rule.withinDays.Some?)
  }

  predicate FieldHas(t: Text, n: Notice, d: Detail)
    requires d.value.Term?
  {
    match d.field
    case Title => Contains(t, n.title, d.value.term)
    case Agency => Contains(t, n.agency, d.value.term)
    case Region => Contains(t, n.region, d.value.term)
    case _ => false
  }

  lemma {:induction false} IncludeAllDetails(t: Text, now: Time, n: Notice, rule: Rule, k: nat)
    requires k <= |rule.includeAll|
    ensures var c := IncludeAllCheck(t, n, rule.includeAll[..k]);
      c.Pass? ==> forall d <- c.details :: d.code == IncludeAll && DetailHolds(t, now, n, rule, d)
  {
    hide Contains, HasTerms;
    if k > 0 {
      IncludeAllDetails(t, now, n, rule, k - 1);
      assert rule.includeAll[..k][..k - 1] == rule.includeAll[..k - 1];
    }
  }

  ghost predicate AllHold(t: Text, now: Time, n: Notice, rule: Rule, details: seq<Detail>) {
    forall d <- details :: DetailHolds(t, now, n, rule, d)
  }

  ghost predicate CheckHolds(t: Text, now: Time, n: Notice, rule: Rule, c: Check) {
    match c
    case Reject => true
    case Invalid(d) => DetailHolds(t, now, n, rule, d)
    case Pass(details) => AllHold(t, now, n, rule, details)
  }

  ghost predicate ProgressHolds(t: Text, now: Time, n: Notice, rule: Rule, p: Progress) {
    match p
    case Stopped(result) => AllHold(t, now, n, rule, result.details)
    case Going(details) => AllHold(t, now, n, rule, details)
  }

  lemma ThenHolds(t: Text, now: Time, n: Notice, rule: Rule, p: Progress, c: Check)
    requires ProgressHolds(t, now, n, rule, p) && CheckHolds(t, now, n, rule, c)
    ensures ProgressHolds(t, now, n, rule, Then(p, c))
  {
    hide DetailHolds;
  }

  lemma KeywordChecksHold(t: Text, now: Time, n: Notice, rule: Rule)
    ensures CheckHolds(t, now, n, rule, ExcludeCheck(t, n, rule))
    ensures CheckHolds(t, now, n, rule, IncludeAnyCheck(t, n, rule))
  {
    hide Contains, HasTerms, WithinDays, WeekdayOf;
  }

  lemma TermChecksHold(t: Text, now: Time, n: Notice, rule: Rule)
    ensures CheckHolds(t, now, n, rule, TermCheck(t, n.agency, rule.agencies, InAgency, Agency))
    ensures CheckHolds(t, now, n, rule, TermCheck(t, n.region, rule.regions, InRegion, Region))
  {
    hide Contains, HasTerms, WithinDays, WeekdayOf;
  }

  lemma IncludeAllHolds(t: Text, now: Time, n: Notice, rule: Rule)
    ensures CheckHolds(t, now, n, rule, IncludeAllCheck(t, n, rule.includeAll))
  {
    hide DetailHolds, IncludeAllCheck;
    IncludeAllMeans(t, n, rule.includeAll);
    IncludeAllDetails(t, now, n, rule, |rule.includeAll|);
    assert rule.includeAll[..|rule.includeAll|] == rule.includeAll;
  }

  lemma ChecksHold(t: Text, now: Time, n: Notice, rule: Rule)
    ensures CheckHolds(t, now, n, rule, CategoryCheck(n, rule))
    ensures CheckHolds(t, now, n, rule, MinCheck(n, rule))
    ensures CheckHolds(t, now, n, rule, MaxCheck(n, rule))
    ensures CheckHolds(t, now, n, rule, WeekdayCheck(n, rule))
    ensures CheckHolds(t, now, n, rule, WithinCheck(now, n, rule))
  {
    hide Contains, WithinDays, WeekdayOf;
  }

  /** Every recorded reason, of a match or of a refusal, is true. */
  lemma DetailsAreTrue(t: Text, now: Time, n: Notice, rule: Rule)
    ensures forall d <- MatchAt(t, now, n, rule).details :: DetailHolds(t, now, n, rule, d)
  {
    hide DetailHolds, CheckHolds, Then, ExcludeCheck, IncludeAnyCheck, IncludeAllCheck, CategoryCheck, TermCheck,
      MinCheck, MaxCheck, WeekdayCheck, WithinCheck;
    KeywordChecksHold(t, now, n, rule);
    TermChecksHold(t, now, n, rule);
    IncludeAllHolds(t, now, n, rule);
    ChecksHold(t, now, n, rule);
    var p := Going([]);
    ThenHolds(t, now, n, rule, p, ExcludeCheck(t, n, rule));
    p := Then(p, ExcludeCheck(t, n, rule));
    ThenHolds(t, now, n, rule, p, IncludeAnyCheck(t, n, rule));
    p := Then(p, IncludeAnyCheck(t, n, rule));
    ThenHolds(t, now, n, rule, p, IncludeAllCheck(t, n, rule.includeAll));
    p := Then(p, IncludeAllCheck(t, n, rule.includeAll));
    ThenHolds(t, now, n, rule, p, CategoryCheck(n, rule));
    p := Then(p, CategoryCheck(n, rule));
    ThenHolds(t, now, n, rule, p, TermCheck(t, n.agency, rule.agencies, InAgency, Agency));
    p := Then(p, TermCheck(t, n.agency, rule.agencies, InAgency, Agency));
    ThenHolds(t, now, n, rule, p, TermCheck(t, n.region, rule.regions, InRegion, Region));
    p := Then(p, TermCheck(t, n.region, rule.regions, InRegion, Region));
    ThenHolds(t, now, n, rule, p, MinCheck(n, rule));
    p := Then(p, MinCheck(n, rule));
    ThenHolds(t, now, n, rule, p, MaxCheck(n, rule));
    p := Then(p, MaxCheck(n, rule));
    ThenHolds(t, now, n, rule, p, WeekdayCheck(n, rule));
    p := Then(p, WeekdayCheck(n, rule));
    ThenHolds(t, now, n, rule, p, WithinCheck(now, n, rule));
  }

  // ---- the verdict depends on the normalised notice only ----

  /** Two notices that differ at most in what normalisation removes. */
  ghost predicate SameText(t: Text, a: Notice, b: Notice) {
    && t.Normalize(a.title) == t.Normalize(b.title) && t.Normalize(a.agency) == t.Normalize(b.agency)
    && t.Normalize(a.region) == t.Normalize(b.region)
    && a.category == b.category && a.amount == b.amount && a.deadline == b.deadline
  }

  lemma SameField(t: Text, a: Notice, b: Notice, term: string)
    requires SameText(t, a, b)
    ensures KeywordField(t, a, term) == KeywordField(t, b, term)
  {
    hide HasSubstring;
  }

  lemma {:induction false} SameKeywords(t: Text, a: Notice, b: Notice, terms: seq<string>)
    requires SameText(t, a, b)
    ensures KeywordMatch(t, a, terms) == KeywordMatch(t, b, terms)
    decreases |terms|
  {
    hide SameText, KeywordField;
    if terms != [] {
      SameField(t, a, b, terms[0]);
      SameKeywords(t, a, b, terms[1..]);
    }
  }

  lemma {:induction false} SameIncludeAll(t: Text, a: Notice, b: Notice, terms: seq<string>)
    requires SameText(t, a, b)
    ensures IncludeAllCheck(t, a, terms) == IncludeAllCheck(t, b, terms)
    decreases |terms|
  {
    hide SameText, KeywordField;
    if terms != [] {
      SameField(t, a, b, terms[|terms| - 1]);
      SameIncludeAll(t, a, b, terms[..|terms| - 1]);
    }
  }

  lemma {:induction false} SameTerms(t: Text, v: string, w: string, terms: seq<string>)
    requires t.Normalize(v) == t.Normalize(w)
    ensures MatchingTerm(t, v, terms) == MatchingTerm(t, w, terms)
  {
    if terms != [] {
      SameTerms(t, v, w, terms[1..]);
    }
  }

  lemma SameChecks(t: Text, now: Time, a: Notice, b: Notice, rule: Rule)
    requires SameText(t, a, b)
    ensures ExcludeCheck(t, a, rule) == ExcludeCheck(t, b, rule)
    ensures IncludeAnyCheck(t, a, rule) == IncludeAnyCheck(t, b, rule)
    ensures TermCheck(t, a.agency, rule.agencies, InAgency, Agency) ==
      TermCheck(t, b.agency, rule.agencies, InAgency, Agency)
    ensures TermCheck(t, a.region, rule.regions, InRegion, Region) ==
      TermCheck(t, b.region, rule.regions, InRegion, Region)
  {
    hide KeywordMatch, MatchingTerm, HasTerms;
    SameKeywords(t, a, b, rule.exclude);
    SameKeywords(t, a, b, rule.includeAny);
    SameTerms(t, a.agency, b.agency, rule.agencies);
    SameTerms(t, a.region, b.region, rule.regions);
  }

  lemma SameTextSameVerdict(t: Text, now: Time, a: Notice, b: Notice, rule: Rule)
    requires SameText(t, a, b)
    ensures MatchAt(t, now, a, rule) == MatchAt(t, now, b, rule)
  {
    hide ExcludeCheck, IncludeAnyCheck, IncludeAllCheck, TermCheck, Then;
    SameChecks(t, now, a, b, rule);
    SameIncludeAll(t, a, b, rule.includeAll);
  }

  // ---- the deadline window ----

  /** The most days whose nanoseconds fit 64 bits. */
  const MAX_DAYS: int := 106_751

  /** The filter form admits 1 to 365 days. */
  const MAX_FORM_DAYS: int := 365

  /** For every number of days that the form admits, the window is that many days from now. */
  lemma WithinDaysOfTheForm(now: Time, deadline: Time, days: int)
    requires 1 <= days <= MAX_FORM_DAYS
    ensures WithinDays(now, deadline, days) <==> now <= deadline <= now + days * DAY
  {
    assert 0 <= days * DAY <= MAX_INT64;
  }

  /**
   The limit of the exported function, which the form does not reach: the window is exact precisely for
   rules whose nanoseconds do not overflow, up to 106751 days and no negative number that wraps to a
   positive one.
   */
  lemma WithinDaysIsExactUntilItOverflows(days: int)
    ensures (forall now, deadline :: WithinDays(now, deadline, days) <==> now <= deadline <= now + days * DAY)
      <==> days <= MAX_DAYS && (days < 0 ==> Wrap(days * DAY) < 0)
  {
    if days > MAX_DAYS {
      var late := days * DAY;
      assert late > MAX_INT64 && Since(late, 0) == MAX_INT64;
      WrapBelowMax(days);
      assert !WithinDays(0, late, days) && 0 <= late <= 0 + days * DAY;
    } else if days >= 0 {
      assert 0 <= days * DAY <= MAX_INT64 && Wrap(days * DAY) == days * DAY;
    } else if Wrap(days * DAY) >= 0 {
      assert days * DAY < 0;
      assert WithinDays(0, 0, days) && !(0 <= 0 <= 0 + days * DAY);
    } else {
      assert days * DAY < 0;
      forall now, deadline ensures !WithinDays(now, deadline, days) {
        assert deadline >= now ==> Since(deadline, now) >= 0;
      }
    }
  }

  /** A product of days is never the greatest 64-bit value, which is odd. */
  lemma WrapBelowMax(days: int)
    ensures Wrap(days * DAY) < MAX_INT64
  {
    assert days * DAY == 2 * (days * 43_200_000_000_000);
    EvenStaysEven(days * 43_200_000_000_000);
  }

  lemma EvenStaysEven(k: int)
    ensures Wrap(2 * k) < MAX_INT64
  {
    var m := (2 * k) % 0x1_0000_0000_0000_0000;
    var q := (2 * k) / 0x1_0000_0000_0000_0000;
    assert m == 2 * (k - q * 0x8000_0000_0000_0000);
  }

  lemma OverflowRejectsEveryDeadline(now: Time, deadline: Time)
    ensures !WithinDays(now, deadline, MAX_DAYS + 1)
  {
    assert Wrap((MAX_DAYS + 1) * DAY) < 0;
  }

  // ---- the code ----

  method AnyTerm(terms: seq<string>) returns (found: bool)
    ensures found == HasTerms(terms)
  {
    for i := 0 to |terms|
      invariant forall j :: 0 <= j < i ==> Blank(terms[j])
    {
      if !Blank(terms[i]) {
        return true;
      }
    }
    return false;
  }

  method FindKeyword(t: Text, n: Notice, terms: seq<string>) returns (r: Option<(Field, string)>)
    ensures r == KeywordMatch(t, n, terms)
  {
    hide Contains;
    var i := 0;
    while i < |terms|
      invariant 0 <= i <= |terms|
      invariant KeywordMatch(t, n, terms) == KeywordMatch(t, n, terms[i..])
    {
      assert terms[i..][0] == terms[i] && terms[i..][1..] == terms[i + 1..];
      if !Blank(terms[i]) {
        var field := KeywordField(t, n, terms[i]);
        if field.Some? {
          return Some((field.value, terms[i]));
        }
      }
      i := i + 1;
    }
    return None;
  }

  method FindTerm(t: Text, value: string, terms: seq<string>) returns (r: Option<string>)
    ensures r == MatchingTerm(t, value, terms)
  {
    hide Contains;
    var i := 0;
    while i < |terms|
      invariant 0 <= i <= |terms|
      invariant MatchingTerm(t, value, terms) == MatchingTerm(t, value, terms[i..])
    {
      assert terms[i..][0] == terms[i] && terms[i..][1..] == terms[i + 1..];
      if !Blank(terms[i]) && Contains(t, value, terms[i]) {
        return Some(terms[i]);
      }
      i := i + 1;
    }
    return None;
  }

  /** The checks on text, in the order of the source and with its early exits. */
  method EvaluateText(t: Text, n: Notice, rule: Rule) returns (p: Progress)
    ensures p == TextChecked(t, n, rule)
  {
    hide KeywordMatch, HasTerms, IncludeAllCheck, TermCheck, Hit, KeywordField, Contains, Blank;
    var excluded := FindKeyword(t, n, rule.exclude);
    if excluded.Some? {
      return Stopped(Result(false, [Detail(Excluded, excluded.value.0, Term(excluded.value.1))]));
    }
    var details: seq<Detail> := [];
    var terms := AnyTerm(rule.includeAny);
    if terms {
      var found := FindKeyword(t, n, rule.includeAny);
      if found.None? {
        return Stopped(Result(false, []));
      }
      details := details + [Detail(IncludeAny, found.value.0, Term(found.value.1))];
    }
    var all := EvaluateAll(t, n, rule.includeAll);
    if all.None? {
      return Stopped(Result(false, []));
    }
    details := details + all.value;
    if rule.categories != [] {
      if n.category !in rule.categories {
        return Stopped(Result(false, []));
      }
      details := details + [Detail(InCategory, Category, Term(n.category))];
    }
    var agency := EvaluateTerm(t, n.agency, rule.agencies, InAgency, Agency);
    if agency.None? {
      return Stopped(Result(false, []));
    }
    var region := EvaluateTerm(t, n.region, rule.regions, InRegion, Region);
    if region.None? {
      return Stopped(Result(false, []));
    }
    details := details + agency.value + region.value;
    return Going(details);
  }

  /** The whole evaluation. */
  method Evaluate(t: Text, now: Time, n: Notice, rule: Rule) returns (r: Result)
    ensures r == MatchAt(t, now, n, rule)
  {
    hide TextChecked, WithinDays, WeekdayOf;
    var p := EvaluateText(t, n, rule);
    if p.Stopped? {
      return p.result;
    }
    var details := p.details;
    if rule.minAmount.Some? {
      if n.amount < rule.minAmount.value {
        return Result(false, []);
      }
      details := details + [Detail(MinAmount, Amount, Number(rule.minAmount.value))];
    }
    if rule.maxAmount.Some? {
      if n.amount > rule.maxAmount.value {
        return Result(false, []);
      }
      details := details + [Detail(MaxAmount, Amount, Number(rule.maxAmount.value))];
    }
    if rule.weekdays != [] {
      if n.deadline.None? {
        return Result(false, [Detail(InvalidDeadline, Deadline, Days(rule.weekdays))]);
      }
      if WeekdayOf(n.deadline.value) !in rule.weekdays {
        return Result(false, []);
      }
      details := details + [Detail(DeadlineWeekday, Deadline, Days(rule.weekdays))];
    }
    if rule.withinDays.Some? {
      if n.deadline.None? {
        return Result(false, [Detail(InvalidDeadline, Deadline, Number(rule.withinDays.value))]);
      }
      if !WithinDays(now, n.deadline.value.at, rule.withinDays.value) {
        return Result(false, []);
      }
      details := details + [Detail(DeadlineWithinDays, Deadline, Number(rule.withinDays.value))];
    }
    return Result(true, details);
  }

  method EvaluateTerm(t: Text, value: string, terms: seq<string>, code: Reason, field: Field)
    returns (r: Option<seq<Detail>>)
    ensures TermCheck(t, value, terms, code, field) == if r.Some? then Pass(r.value) else Reject
  {
    hide Contains;
    var given := AnyTerm(terms);
    if !given {
      return Some([]);
    }
    var found := FindTerm(t, value, terms);
    return if found.None? then None else Some([Detail(code, field, Term(found.value))]);
  }

  method EvaluateAll(t: Text, n: Notice, terms: seq<string>) returns (r: Option<seq<Detail>>)
    ensures IncludeAllCheck(t, n, terms) == if r.Some? then Pass(r.value) else Reject
  {
    hide Contains;
    var details: seq<Detail> := [];
    for i := 0 to |terms|
      invariant IncludeAllCheck(t, n, terms[..i]) == Pass(details)
    {
      assert terms[..i + 1][..i] == terms[..i];
      var found := FindKeyword(t, n, [terms[i]]);
      if !Blank(terms[i]) && found.None? {
        assert IncludeAllCheck(t, n, terms[..i + 1]).Reject?;
        RejectStays(t, n, terms, i + 1);
        return None;
      }
      if !Blank(terms[i]) {
        details := details + [Detail(IncludeAll, found.value.0, Term(found.value.1))];
      }
    }
    assert terms[..|terms|] == terms;
    return Some(details);
  }

  lemma {:induction false} RejectStays(t: Text, n: Notice, terms: seq<string>, k: nat)
    requires k <= |terms| && IncludeAllCheck(t, n, terms[..k]).Reject?
    ensures IncludeAllCheck(t, n, terms).Reject?
    decreases |terms| - k
  {
    if k == |terms| {
      assert terms[..k] == terms;
    } else {
      assert terms[..k + 1][..k] == terms[..k];
      RejectStays(t, n, terms, k + 1);
    }
  }
}
