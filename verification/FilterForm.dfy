/** What the filter form admits as a rule's deadline window. */
module FilterForm {
  import opened Basics
  import opened Decimals
  import opened Strings
  import opened Notices
  import opened Matcher

  datatype Days = Refused | NoLimit | Limit(days: int)

  /** A blank field is no limit; any other must be a whole number from 1 to 365. */
  method ReadDeadlineDays(field: string) returns (r: Days)
    ensures r.NoLimit? <==> Blank(field)
    ensures r.Limit? <==> exists days :: 1 <= days <= 365 && ParseInt(TrimSpace(field)) == Some(days)
    ensures r.Limit? ==> ParseInt(TrimSpace(field)) == Some(r.days)
  {
    var raw := TrimSpace(field);
    if raw == "" {
      return NoLimit;
    }
    var days := ParseInt(raw);
    if days.None? || days.value < 1 || days.value > 365 {
      return Refused;
    }
    return Limit(days.value);
  }

  /**
   A window that the form admits narrows a rule by exactly what it says: the notice matches if it
   matches without the window and its deadline lies within so many days from now.
   */
  lemma AdmittedWindowMeansItsDays(t: Text, now: Time, n: Notice, rule: Rule, days: int)
    requires 1 <= days <= 365
    ensures var unlimited := MatchAt(t, now, n, rule.(withinDays := None));
      var near := n.deadline.Some? && now <= n.deadline.value.at <= now + days * DAY;
      MatchAt(t, now, n, rule.(withinDays := Some(days))).matched <==> unlimited.matched && near
  {
    hide MatchAt, Hit, HasTerms, Contains, WeekdayOf, WithinDays;
    MatchedIffAccepted(t, now, n, rule.(withinDays := Some(days)));
    MatchedIffAccepted(t, now, n, rule.(withinDays := None));
    if n.deadline.Some? {
      WithinDaysOfTheForm(now, n.deadline.value.at, days);
    }
  }
}
