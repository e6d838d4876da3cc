/** Which reasons a verdict records, and in which order. */
module MatchReasons {
  import opened Basics
  import opened Strings
  import opened Notices
  import opened Matcher

  // ---- containing a term ----

  /** A value contains a term when the folded form of the one occurs, as it stands, in the folded form of the other. */
  lemma ContainsMeans(t: Text, value: string, term: string)
    ensures Contains(t, value, term) <==>
      exists before: string, after: string :: t.fold(t.Normalize(value)) == before + t.fold(t.Normalize(term)) + after
  {
    var v, p := t.fold(t.Normalize(value)), t.fold(t.Normalize(term));
    if i :| 0 <= i <= |v| - |p| && p <= v[i..] {
      assert v == v[..i] + p + v[i + |p|..];
    }
    if before: string, after: string :| v == before + p + after {
      assert v[|before|..] == p + after;
      assert p <= v[|before|..];
    }
  }

  // ---- the first term, and the first field ----

  /** The field of a hit is the first of title, agency and region that contains the term. */
  lemma FieldIsFirst(t: Text, n: Notice, term: string)
    ensures KeywordField(t, n, term) == Some(Title) <==> Contains(t, n.title, term)
    ensures KeywordField(t, n, term) == Some(Agency) <==>
      !Contains(t, n.title, term) && Contains(t, n.agency, term)
    ensures KeywordField(t, n, term) == Some(Region) <==>
      !Contains(t, n.title, term) && !Contains(t, n.agency, term) && Contains(t, n.region, term)
    ensures KeywordField(t, n, term).Some? ==> KeywordField(t, n, term).value in {Title, Agency, Region}
  {
    hide Contains;
  }

  /** Of several terms that occur the first is reported. */
  lemma {:induction false} KeywordIsFirst(t: Text, n: Notice, terms: seq<string>) returns (i: nat)
    requires KeywordMatch(t, n, terms).Some?
    ensures i < |terms| && KeywordMatch(t, n, terms).value.1 == terms[i]
    ensures forall j :: 0 <= j < i ==> !Hit(t, n, terms[j])
  {
    hide Hit;
    i := 0;
    if !Hit(t, n, terms[0]) {
      var rest := KeywordIsFirst(t, n, terms[1..]);
      i := rest + 1;
      assert forall j :: 0 < j < i ==> terms[j] == terms[1..][j - 1];
    }
  }

  lemma {:induction false} TermIsFirst(t: Text, value: string, terms: seq<string>) returns (i: nat)
    requires MatchingTerm(t, value, terms).Some?
    ensures i < |terms| && MatchingTerm(t, value, terms).value == terms[i]
    ensures forall j :: 0 <= j < i ==> Blank(terms[j]) || !Contains(t, value, terms[j])
  {
    hide Contains, Blank;
    i := 0;
    if Blank(terms[0]) || !Contains(t, value, terms[0]) {
      var rest := TermIsFirst(t, value, terms[1..]);
      i := rest + 1;
      assert forall j :: 0 < j < i ==> terms[j] == terms[1..][j - 1];
    }
  }

  // ---- the reasons of a match ----

  function CodesOf(details: seq<Detail>): (r: seq<Reason>)
    ensures |r| == |details| && forall i :: 0 <= i < |r| ==> r[i] == details[i].code
  {
    seq(|details|, i requires 0 <= i < |details| => details[i].code)
  }

  function When(b: bool, code: Reason): seq<Reason> {
    if b then [code] else []
  }

  /** The nonblank terms, in their order. */
  function Terms(terms: seq<string>): seq<string> {
    if terms == [] then []
    else
      var last := terms[|terms| - 1];
      Terms(terms[..|terms| - 1]) + if Blank(last) then [] else [last]
  }

  function AllCodes(terms: seq<string>): seq<Reason> {
    seq(|Terms(terms)|, _ => IncludeAll)
  }

  /** One reason for every condition that is set, and for every term that has to occur. */
  function Expected(rule: Rule): seq<Reason> {
    When(HasTerms(rule.includeAny), IncludeAny) + AllCodes(rule.includeAll)
    + When(rule.categories != [], InCategory)
    + When(HasTerms(rule.agencies), InAgency) + When(HasTerms(rule.regions), InRegion)
    + When(rule.minAmount.Some?, MinAmount) + When(rule.maxAmount.Some?, MaxAmount)
    + When(rule.weekdays != [], DeadlineWeekday) + When(rule.withinDays.Some?, DeadlineWithinDays)
  }

  /** The terms that have to occur are reported one by one, each in the first field that has it. */
  lemma {:induction false} IncludeAllReports(t: Text, n: Notice, terms: seq<string>)
    ensures var c := IncludeAllCheck(t, n, terms); var named := Terms(terms);
      c.Pass? ==>
        && |c.details| == |named|
        && forall i :: 0 <= i < |named| ==>
             KeywordField(t, n, named[i]).Some?
             && c.details[i] == Detail(IncludeAll, KeywordField(t, n, named[i]).value, Term(named[i]))
    decreases |terms|
  {
    hide KeywordField, Blank;
    if terms != [] {
      IncludeAllReports(t, n, terms[..|terms| - 1]);
    }
  }

  /** A check passes with the reasons of these codes, or does not pass. */
  predicate PassesWith(c: Check, codes: seq<Reason>) {
    c.Pass? ==> CodesOf(c.details) == codes
  }

  predicate GoesWith(p: Progress, codes: seq<Reason>) {
    p.Going? ==> CodesOf(p.details) == codes
  }

  lemma ThenCodes(p: Progress, c: Check, before: seq<Reason>, more: seq<Reason>)
    requires GoesWith(p, before) && PassesWith(c, more) && (p.Stopped? ==> !p.result.matched)
    ensures GoesWith(Then(p, c), before + more) && (Then(p, c).Stopped? ==> !Then(p, c).result.matched)
  {
  }

  lemma CheckCodes(t: Text, now: Time, n: Notice, rule: Rule)
    ensures PassesWith(ExcludeCheck(t, n, rule), [])
    ensures PassesWith(IncludeAnyCheck(t, n, rule), When(HasTerms(rule.includeAny), IncludeAny))
    ensures PassesWith(IncludeAllCheck(t, n, rule.includeAll), AllCodes(rule.includeAll))
    ensures PassesWith(CategoryCheck(n, rule), When(rule.categories != [], InCategory))
    ensures PassesWith(TermCheck(t, n.agency, rule.agencies, InAgency, Agency), When(HasTerms(rule.agencies), InAgency))
    ensures PassesWith(TermCheck(t, n.region, rule.regions, InRegion, Region), When(HasTerms(rule.regions), InRegion))
    ensures PassesWith(MinCheck(n, rule), When(rule.minAmount.Some?, MinAmount))
    ensures PassesWith(MaxCheck(n, rule), When(rule.maxAmount.Some?, MaxAmount))
    ensures PassesWith(WeekdayCheck(n, rule), When(rule.weekdays != [], DeadlineWeekday))
    ensures PassesWith(WithinCheck(now, n, rule), When(rule.withinDays.Some?, DeadlineWithinDays))
  {
    hide KeywordField, KeywordMatch, MatchingTerm, HasTerms, WithinDays, WeekdayOf, IncludeAllCheck, Terms;
    IncludeAllReports(t, n, rule.includeAll);
  }

  /** A match records one reason for every condition of the rule, in the order of the conditions. */
  lemma ReasonsAreComplete(t: Text, now: Time, n: Notice, rule: Rule)
    ensures var result := MatchAt(t, now, n, rule); result.matched ==> CodesOf(result.details) == Expected(rule)
  {
    hide ExcludeCheck, IncludeAnyCheck, IncludeAllCheck, CategoryCheck, TermCheck, MinCheck, MaxCheck, WeekdayCheck;
    hide WithinCheck, Then, CodesOf, PassesWith, GoesWith, When, AllCodes, HasTerms;
    CheckCodes(t, now, n, rule);
    NoCodes();
    var e0 := [];
    var p0 := Going([]);
    var p1 := Then(p0, ExcludeCheck(t, n, rule));
    ThenCodes(p0, ExcludeCheck(t, n, rule), e0, []);
    var e1 := e0 + [];
    var p2 := Then(p1, IncludeAnyCheck(t, n, rule));
    ThenCodes(p1, IncludeAnyCheck(t, n, rule), e1, When(HasTerms(rule.includeAny), IncludeAny));
    var e2 := e1 + When(HasTerms(rule.includeAny), IncludeAny);
    var p3 := Then(p2, IncludeAllCheck(t, n, rule.includeAll));
    ThenCodes(p2, IncludeAllCheck(t, n, rule.includeAll), e2, AllCodes(rule.includeAll));
    var e3 := e2 + AllCodes(rule.includeAll);
    var p4 := Then(p3, CategoryCheck(n, rule));
    ThenCodes(p3, CategoryCheck(n, rule), e3, When(rule.categories != [], InCategory));
    var e4 := e3 + When(rule.categories != [], InCategory);
    var p5 := Then(p4, TermCheck(t, n.agency, rule.agencies, InAgency, Agency));
    ThenCodes(p4, TermCheck(t, n.agency, rule.agencies, InAgency, Agency), e4, When(HasTerms(rule.agencies), InAgency));
    var e5 := e4 + When(HasTerms(rule.agencies), InAgency);
    var p6 := Then(p5, TermCheck(t, n.region, rule.regions, InRegion, Region));
    ThenCodes(p5, TermCheck(t, n.region, rule.regions, InRegion, Region), e5, When(HasTerms(rule.regions), InRegion));
    var e6 := e5 + When(HasTerms(rule.regions), InRegion);
    assert p6 == TextChecked(t, n, rule);
    LimitCodes(t, now, n, rule, e6);
    assert e2 == When(HasTerms(rule.includeAny), IncludeAny);
  }

  lemma NoCodes()
    ensures GoesWith(Going([]), [])
  {
  }

  lemma LimitCodes(t: Text, now: Time, n: Notice, rule: Rule, codes: seq<Reason>)
    requires var p := TextChecked(t, n, rule); GoesWith(p, codes) && (p.Stopped? ==> !p.result.matched)
    ensures var result := MatchAt(t, now, n, rule);
      var limits := When(rule.minAmount.Some?, MinAmount) + When(rule.maxAmount.Some?, MaxAmount)
        + When(rule.weekdays != [], DeadlineWeekday) + When(rule.withinDays.Some?, DeadlineWithinDays);
      result.matched ==> CodesOf(result.details) == codes + limits
  {
    hide MinCheck, MaxCheck, WeekdayCheck, WithinCheck, Then, CodesOf, PassesWith, When, TextChecked;
    CheckCodes(t, now, n, rule);
    var p0 := TextChecked(t, n, rule);
    var p1 := Then(p0, MinCheck(n, rule));
    ThenCodes(p0, MinCheck(n, rule), codes, When(rule.minAmount.Some?, MinAmount));
    var e1 := codes + When(rule.minAmount.Some?, MinAmount);
    var p2 := Then(p1, MaxCheck(n, rule));
    ThenCodes(p1, MaxCheck(n, rule), e1, When(rule.maxAmount.Some?, MaxAmount));
    var e2 := e1 + When(rule.maxAmount.Some?, MaxAmount);
    var p3 := Then(p2, WeekdayCheck(n, rule));
    ThenCodes(p2, WeekdayCheck(n, rule), e2, When(rule.weekdays != [], DeadlineWeekday));
    var e3 := e2 + When(rule.weekdays != [], DeadlineWeekday);
    ThenCodes(p3, WithinCheck(now, n, rule), e3, When(rule.withinDays.Some?, DeadlineWithinDays));
  }

  // ---- the reasons of a refusal ----

  /** The rule without its conditions on the deadline. */
  function Undated(rule: Rule): Rule {
    rule.(weekdays := [], withinDays := None)
  }

  /**
   A refusal records a reason in two cases only: the first excluded term that occurs, or, when nothing
   else is wrong, that the notice has no deadline although the rule asks for one.
   */
  lemma RefusalReasons(t: Text, now: Time, n: Notice, rule: Rule)
    requires !MatchAt(t, now, n, rule).matched
    ensures var details := MatchAt(t, now, n, rule).details; var excluded := KeywordMatch(t, n, rule.exclude);
      var dated := n.deadline.None? && (rule.weekdays != [] || rule.withinDays.Some?);
      if excluded.Some? then details == [Detail(Excluded, excluded.value.0, Term(excluded.value.1))]
      else if Accepts(t, now, n, Undated(rule)) && dated then
        var wanted := if rule.weekdays != [] then Days(rule.weekdays) else Number(rule.withinDays.value);
        details == [Detail(InvalidDeadline, Deadline, wanted)]
      else details == []
  {
    hide Hit, KeywordField, HasTerms, Contains, WithinDays, WeekdayOf;
    IncludeAllMeans(t, n, rule.includeAll);
    if KeywordMatch(t, n, rule.exclude).None? {
      UndatedText(t, now, n, rule);
    }
  }

  /** Without the deadline's conditions the rule accepts exactly when the other checks go through. */
  lemma UndatedText(t: Text, now: Time, n: Notice, rule: Rule)
    ensures var p := Then(Then(TextChecked(t, n, rule), MinCheck(n, rule)), MaxCheck(n, rule));
      Accepts(t, now, n, Undated(rule)) <==> p.Going?
  {
    hide Accepts, TextChecked, MinCheck, MaxCheck;
    MatchedIffAccepted(t, now, n, Undated(rule));
    SameTextChecked(t, n, rule);
    CheckCodes(t, now, n, rule);
    TextStops(t, n, rule);
    assert MinCheck(n, Undated(rule)) == MinCheck(n, rule) && MaxCheck(n, Undated(rule)) == MaxCheck(n, rule) by {
      LimitsOfUndated(n, rule);
    }
  }

  lemma LimitsOfUndated(n: Notice, rule: Rule)
    ensures MinCheck(n, Undated(rule)) == MinCheck(n, rule) && MaxCheck(n, Undated(rule)) == MaxCheck(n, rule)
  {
  }

  lemma SameTextChecked(t: Text, n: Notice, rule: Rule)
    ensures TextChecked(t, n, Undated(rule)) == TextChecked(t, n, rule)
  {
    hide Then, KeywordMatch, IncludeAllCheck, TermCheck, HasTerms;
  }

  lemma TextStops(t: Text, n: Notice, rule: Rule)
    ensures TextChecked(t, n, rule).Stopped? ==> !TextChecked(t, n, rule).result.matched
  {
    hide KeywordMatch, IncludeAllCheck, TermCheck, HasTerms;
  }
}
