/** The name of a report file: the filter label, the current path format and the legacy one. */
module ReportPaths {
  import opened Basics
  import opened Strings

  // ---- characters ----

  predicate IsControl(c: char) {
    c as int <= 0x1f || 0x7f <= c as int <= 0x9f
  }

  predicate Unsafe(c: char) {
    IsControl(c) || c in "/\\:*?\"<>|"
  }

  predicate IsEdge(c: char) {
    c == ' ' || c == '.'
  }

  /** The length of a character in UTF-8. */
  function RuneLen(c: char): nat {
    var n := c as int;
    if n < 0x80 then 1 else if n < 0x800 then 2 else if n < 0x10000 then 3 else 4
  }

  function ByteLen(s: string): nat {
    if s == [] then 0 else RuneLen(s[0]) + ByteLen(s[1..])
  }

  // ---- the label ----

  const MERGED: string := "통합"
  const SUFFIX: string := "보고서.html"

  function Sanitize(s: string): (r: string)
    ensures |r| == |s| && forall i :: 0 <= i < |s| ==> r[i] == if Unsafe(s[i]) then '_' else s[i]
  {
    seq(|s|, i requires 0 <= i < |s| => if Unsafe(s[i]) then '_' else s[i])
  }

  /** The longest prefix within sixty characters and 220 bytes, given what has been used of both. */
  function Clip(s: string, count: nat, bytes: nat): string {
    if s == [] || count == 60 || bytes + RuneLen(s[0]) > 220 then []
    else [s[0]] + Clip(s[1..], count + 1, bytes + RuneLen(s[0]))
  }

  /** The label of a report on one rule. */
  function LabelText(name: string): string {
    var text := Clip(DropRight(DropLeft(Sanitize(name), IsEdge), IsEdge), 0, 0);
    if text == [] then MERGED else text
  }

  /** The label by definition: the one rule's name, or the merged label when there is not exactly one. */
  function Label(names: set<string>): string {
    if exists x <- names :: names == {x} then
      SingletonUnique(names);
      var x :| x in names && names == {x};
      LabelText(x)
    else MERGED
  }

  lemma SingletonUnique(names: set<string>)
    ensures forall x, y :: names == {x} && names == {y} ==> x == y
  {
    forall x, y | names == {x} && names == {y}
      ensures x == y
    {
      assert x in names && y in names;
    }
  }

  /** A notice of a report, with the names of the rules it matched in order. */
  datatype ReportNotice = ReportNotice(id: Id, ruleNames: seq<string>)

  /** The trimmed nonblank rule names of a sequence. */
  function NamesOf(ruleNames: seq<string>): set<string> {
    set n | n in ruleNames && TrimSpace(n) != [] :: TrimSpace(n)
  }

  function Names(notices: seq<ReportNotice>): set<string> {
    if notices == [] then {} else NamesOf(notices[0].ruleNames) + Names(notices[1..])
  }

  lemma {:induction false} NamesSplit(notices: seq<ReportNotice>, k: nat)
    requires k <= |notices|
    ensures Names(notices) == Names(notices[..k]) + Names(notices[k..])
  {
    if k == 0 {
      assert notices[k..] == notices;
    } else {
      NamesSplit(notices[1..], k - 1);
      assert notices[..k][1..] == notices[1..][..k - 1] && notices[k..] == notices[1..][k - 1..];
    }
  }

  lemma NamesStep(notices: seq<ReportNotice>, i: nat)
    requires i < |notices|
    ensures Names(notices[..i + 1]) == Names(notices[..i]) + NamesOf(notices[i].ruleNames)
    ensures Names(notices[..i]) + NamesOf(notices[i].ruleNames) <= Names(notices)
  {
    NamesSplit(notices[..i + 1], i);
    assert notices[..i + 1][..i] == notices[..i] && notices[..i + 1][i..] == [notices[i]];
    assert Names([notices[i]]) == NamesOf(notices[i].ruleNames) + Names([]);
    NamesSplit(notices, i + 1);
  }

  lemma NamesOfSplit(ruleNames: seq<string>, j: nat)
    requires j < |ruleNames|
    ensures NamesOf(ruleNames[..j + 1]) ==
      NamesOf(ruleNames[..j]) + (if TrimSpace(ruleNames[j]) == [] then {} else {TrimSpace(ruleNames[j])})
  {
    assert ruleNames[..j + 1] == ruleNames[..j] + [ruleNames[j]];
  }

  lemma SecondNameMerges(notices: seq<ReportNotice>, i: nat, j: nat, name: string)
    requires i < |notices| && j < |notices[i].ruleNames|
    requires name in Names(notices[..i]) + NamesOf(notices[i].ruleNames[..j])
    requires TrimSpace(notices[i].ruleNames[j]) != [] && TrimSpace(notices[i].ruleNames[j]) != name
    ensures Label(Names(notices)) == MERGED
  {
    NamesStep(notices, i);
    assert notices[i].ruleNames[j] in notices[i].ruleNames;
    assert name in Names(notices) && TrimSpace(notices[i].ruleNames[j]) in Names(notices);
  }

  /** The label loop: it stops at a second name, so only the set of names matters. */
  method ReportFilterLabel(notices: seq<ReportNotice>) returns (text: string)
    ensures text == Label(Names(notices))
  {
    hide NamesOf, Label;
    var name := "";
    var i := 0;
    assert Names(notices[..0]) == {};
    while i < |notices|
      invariant 0 <= i <= |notices|
      invariant Names(notices[..i]) == if name == "" then {} else {name}
    {
      var matches := notices[i].ruleNames;
      assert NamesOf(matches[..0]) == {} by { NamesOfNothing(); }
      var j := 0;
      while j < |matches|
        invariant 0 <= j <= |matches|
        invariant Names(notices[..i]) + NamesOf(matches[..j]) == if name == "" then {} else {name}
      {
        NamesOfSplit(matches, j);
        var candidate := TrimSpace(matches[j]);
        if candidate != "" {
          if name != "" && name != candidate {
            SecondNameMerges(notices, i, j, name);
            return MERGED;
          }
          name := candidate;
        }
        j := j + 1;
      }
      assert matches[..|matches|] == matches;
      NamesStep(notices, i);
      i := i + 1;
    }
    assert notices[..|notices|] == notices;
    LabelOfAtMostOne(name);
    var clean := DropRight(DropLeft(Sanitize(name), IsEdge), IsEdge);
    text := ClipText(clean);
    if text == "" {
      text := MERGED;
    }
  }

  lemma NamesOfNothing()
    ensures NamesOf([]) == {}
  {
  }

  lemma LabelOfAtMostOne(name: string)
    ensures Label({}) == MERGED
    ensures Label({name}) == LabelText(name)
    ensures LabelText("") == MERGED
  {
    SingletonUnique({name});
    assert Sanitize("") == "";
  }

  /** The builder loop of the label. */
  method ClipText(s: string) returns (text: string)
    ensures text == Clip(s, 0, 0)
  {
    text := "";
    var count: nat, bytes: nat, i: nat := 0, 0, 0;
    while i < |s|
      invariant 0 <= i <= |s|
      invariant Clip(s, 0, 0) == text + Clip(s[i..], count, bytes)
    {
      if count == 60 || bytes + RuneLen(s[i]) > 220 {
        return;
      }
      assert s[i..][1..] == s[i + 1..];
      text := text + [s[i]];
      count, bytes, i := count + 1, bytes + RuneLen(s[i]), i + 1;
    }
  }

  // ---- paths ----

  /** A due time with its Korean calendar fields as the Go time package prints them. */
  datatype Due = Due(at: Time, year: string, month: string, day: string, stamp: string)

  predicate SlashFree(s: string) {
    '/' !in s
  }

  /** A due time that is not the zero time, and prints as digits. */
  predicate PrintedDue(due: Due) {
    due.at != 0 && SlashFree(due.year) && SlashFree(due.month) && SlashFree(due.day) && SlashFree(due.stamp)
  }

  predicate SafeId(id: string) {
    id != "" && id != "." && id != ".." && '/' !in id && '\\' !in id
  }

  function Join(parts: seq<string>): string
    requires parts != []
  {
    if |parts| == 1 then parts[0] else parts[0] + "/" + Join(parts[1..])
  }

  /** A path determines its slash-free components. */
  lemma {:induction false} JoinInjective(a: seq<string>, b: seq<string>)
    requires a != [] && b != []
    requires (forall p <- a :: SlashFree(p)) && (forall p <- b :: SlashFree(p))
    requires Join(a) == Join(b)
    ensures a == b
  {
    assert a[0] in a && b[0] in b;
    FirstSlash(a);
    FirstSlash(b);
    if |a| > 1 && |b| > 1 {
      assert Join(a)[|a[0]|] == '/' && Join(b)[|b[0]|] == '/';
      assert |a[0]| == |b[0]|;
      assert a[0] == Join(a)[..|a[0]|] == b[0];
      assert Join(a[1..]) == Join(a)[|a[0]| + 1..] == Join(b[1..]);
      JoinInjective(a[1..], b[1..]);
      assert a == [a[0]] + a[1..] && b == [b[0]] + b[1..];
    }
  }

  lemma FirstSlash(a: seq<string>)
    requires a != [] && SlashFree(a[0])
    ensures forall i :: 0 <= i < |a[0]| ==> Join(a)[i] != '/'
    ensures if |a| == 1 then Join(a) == a[0] else |Join(a)| > |a[0]| && Join(a)[|a[0]|] == '/'
  {
  }

  datatype Trigger = Scheduled(schedule: Id) | Manual

  /** The path stored with a new report, before its file has been written. */
  function Placeholder(tenant: string, id: string): string {
    Join(["reports", tenant, id + ".html"])
  }

  function LegacyPath(tenant: string, id: string, due: Due, trigger: Trigger): string {
    Join([tenant, due.year, due.month, "namo-" + due.stamp + (if trigger.Manual? then "-" + id else "") + ".html"])
  }

  function CurrentPath(tenant: string, id: string, due: Due, names: set<string>): string {
    Join([tenant, due.year, due.month, id, due.day + "_" + Label(names) + SUFFIX])
  }

  /** reportRelativePath */
  function RelativePath(tenant: string, id: string, due: Due, trigger: Trigger, stored: string,
                        names: set<string>): Option<string> {
    if !SafeId(tenant) || !SafeId(id) || due.at == 0 then None
    else if stored == LegacyPath(tenant, id, due, trigger) then Some(stored)
    else Some(CurrentPath(tenant, id, due, names))
  }

  method ReportRelativePath(tenant: string, id: string, due: Due, trigger: Trigger, stored: string,
                            notices: seq<ReportNotice>)
    returns (path: Option<string>)
    ensures path == RelativePath(tenant, id, due, trigger, stored, Names(notices))
  {
    if !SafeId(tenant) || !SafeId(id) || due.at == 0 {
      return None;
    }
    var name := "namo-" + due.stamp;
    if trigger.Manual? {
      name := name + "-" + id;
    }
    assert name == "namo-" + due.stamp + (if trigger.Manual? then "-" + id else "");
    var legacy := Join([tenant, due.year, due.month, name + ".html"]);
    if stored == legacy {
      return Some(legacy);
    }
    var text := ReportFilterLabel(notices);
    return Some(Join([tenant, due.year, due.month, id, due.day + "_" + text + SUFFIX]));
  }

  /** SELECT DISTINCT rule_name, as one notice for each name in whatever order the names come. */
  method DistinctRuleNames(items: seq<Item>) returns (notices: seq<ReportNotice>)
    ensures Names(notices) == ItemNames(items)
  {
    notices := [];
    var rest := set it | it in items :: it.ruleName;
    assert NamesOfSet(rest) == ItemNames(items);
    while rest != {}
      invariant Names(notices) + NamesOfSet(rest) == ItemNames(items)
      decreases rest
    {
      var name :| name in rest;
      NamesGrow(notices, ReportNotice(0, [name]));
      assert NamesOf([name]) == NamesOfSet({name});
      assert NamesOfSet(rest) == NamesOfSet({name}) + NamesOfSet(rest - {name});
      notices := notices + [ReportNotice(0, [name])];
      rest := rest - {name};
    }
  }

  function NamesOfSet(raw: set<string>): set<string> {
    set n | n in raw && TrimSpace(n) != [] :: TrimSpace(n)
  }

  lemma NamesGrow(notices: seq<ReportNotice>, n: ReportNotice)
    ensures Names(notices + [n]) == Names(notices) + NamesOf(n.ruleNames)
  {
    NamesStep(notices + [n], |notices|);
    assert (notices + [n])[..|notices|] == notices && (notices + [n])[..|notices| + 1] == notices + [n];
  }

  lemma {:induction false} DroppedChars(s: string, p: char -> bool)
    ensures forall c <- DropLeft(s, p) :: c in s
    ensures forall c <- DropRight(s, p) :: c in s
    decreases |s|
  {
    if s != [] {
      DroppedChars(s[1..], p);
      DroppedChars(s[..|s| - 1], p);
    }
  }

  lemma {:induction false} ClippedChars(s: string, count: nat, bytes: nat)
    requires count <= 60 && bytes <= 220
    ensures var r := Clip(s, count, bytes);
      (forall c <- r :: c in s) && count + |r| <= 60 && bytes + ByteLen(r) <= 220
  {
    if !(s == [] || count == 60 || bytes + RuneLen(s[0]) > 220) {
      ClippedChars(s[1..], count + 1, bytes + RuneLen(s[0]));
      var rest := Clip(s[1..], count + 1, bytes + RuneLen(s[0]));
      assert ([s[0]] + rest)[1..] == rest;
    }
  }

  lemma {:induction false} ByteLenConcat(a: string, b: string)
    ensures ByteLen(a + b) == ByteLen(a) + ByteLen(b)
    decreases |a|
  {
    if a == [] {
      assert a + b == b;
    } else {
      ByteLenConcat(a[1..], b);
      assert (a + b)[1..] == a[1..] + b;
    }
  }

  /** A label is never empty, fits a file name, and holds none of the characters unsafe in one. */
  lemma LabelIsSafe(names: set<string>)
    ensures var text := Label(names);
      text != [] && ByteLen(text) <= 220 && |text| <= 60 && forall c <- text :: !Unsafe(c)
  {
    if x :| x in names && names == {x} {
      SingletonUnique(names);
      var clean := Sanitize(x);
      assert forall c <- clean :: !Unsafe(c);
      DroppedChars(clean, IsEdge);
      var left := DropLeft(clean, IsEdge);
      DroppedChars(left, IsEdge);
      ClippedChars(DropRight(left, IsEdge), 0, 0);
    }
  }

  /** The last component of a report path fits the 255 bytes of a file name. */
  lemma FileNameFits(due: Due, names: set<string>)
    requires ByteLen(due.day) <= 8
    ensures ByteLen(due.day + "_" + Label(names) + SUFFIX) <= 255
  {
    LabelIsSafe(names);
    ByteLenConcat(due.day + "_" + Label(names), SUFFIX);
    ByteLenConcat(due.day + "_", Label(names));
    ByteLenConcat(due.day, "_");
    assert ByteLen(SUFFIX) == 14 by {
      ByteLenConcat("보고서", ".html");
      assert "보고서" + ".html" == SUFFIX;
      assert ByteLen("보고서") == 9 by {
        assert "보고서"[1..] == "고서" && "고서"[1..] == "서" && "서"[1..] == "";
      }
      assert ByteLen(".html") == 5 by {
        assert ".html"[1..] == "html" && "html"[1..] == "tml" && "tml"[1..] == "ml";
        assert "ml"[1..] == "l" && "l"[1..] == "";
      }
    }
  }

  lemma CurrentParts(tenant: string, id: string, due: Due, names: set<string>)
    requires SafeId(tenant) && SafeId(id) && PrintedDue(due)
    ensures forall p <- [tenant, due.year, due.month, id, due.day + "_" + Label(names) + SUFFIX] :: SlashFree(p)
  {
    LabelIsSafe(names);
    assert forall c <- Label(names) :: c != '/';
  }

  /** Reports never share a path: the path names the report. */
  lemma PathNamesReport(tenant: string, id: string, due: Due, names: set<string>, id': string, due': Due,
                        names': set<string>)
    requires SafeId(tenant) && SafeId(id) && SafeId(id') && PrintedDue(due) && PrintedDue(due')
    requires CurrentPath(tenant, id, due, names) == CurrentPath(tenant, id', due', names')
    ensures id == id'
  {
    CurrentParts(tenant, id, due, names);
    CurrentParts(tenant, id', due', names');
    var a := [tenant, due.year, due.month, id, due.day + "_" + Label(names) + SUFFIX];
    var b := [tenant, due'.year, due'.month, id', due'.day + "_" + Label(names') + SUFFIX];
    JoinInjective(a, b);
    assert a[3] == b[3];
  }

  /** A report that still has its placeholder path is written under the current format. */
  lemma PlaceholderIsNotLegacy(tenant: string, id: string, due: Due, trigger: Trigger)
    requires SafeId(tenant) && SafeId(id) && PrintedDue(due)
    ensures Placeholder(tenant, id) != LegacyPath(tenant, id, due, trigger)
  {
    var a := ["reports", tenant, id + ".html"];
    var b := [tenant, due.year, due.month, "namo-" + due.stamp + (if trigger.Manual? then "-" + id else "") + ".html"];
    assert forall p <- a :: SlashFree(p);
    assert forall p <- b :: SlashFree(p);
    if Join(a) == Join(b) {
      JoinInjective(a, b);
    }
  }

  lemma CurrentPathUnderTenant(tenant: string, id: string, due: Due, names: set<string>)
    ensures tenant + "/" <= CurrentPath(tenant, id, due, names)
  {
    var parts := [tenant, due.year, due.month, id, due.day + "_" + Label(names) + SUFFIX];
    assert Join(parts) == tenant + "/" + Join(parts[1..]);
  }

  // ---- grouping items into notices ----

  /** A row of report_items, as far as the path depends on it. */
  datatype Item = Item(matchId: Id, noticeId: Id, ruleName: string)

  function ItemNames(items: seq<Item>): set<string> {
    set it | it in items && TrimSpace(it.ruleName) != [] :: TrimSpace(it.ruleName)
  }

  function RuleNamesOf(items: seq<Item>, noticeId: Id): seq<string> {
    if items == [] then []
    else
      var it := items[|items| - 1];
      RuleNamesOf(items[..|items| - 1], noticeId) + (if it.noticeId == noticeId then [it.ruleName] else [])
  }

  lemma {:induction false} RuleNamesMember(items: seq<Item>, noticeId: Id, name: string)
    ensures name in RuleNamesOf(items, noticeId) <==>
      exists it <- items :: it.noticeId == noticeId && it.ruleName == name
  {
    if items != [] {
      RuleNamesMember(items[..|items| - 1], noticeId, name);
      assert items == items[..|items| - 1] + [items[|items| - 1]];
    }
  }

  /** The notice ids of the items, in the order of their first appearance. */
  function FirstSeen(items: seq<Item>): seq<Id> {
    if items == [] then []
    else
      var seen, n := FirstSeen(items[..|items| - 1]), items[|items| - 1].noticeId;
      if n in seen then seen else seen + [n]
  }

  lemma {:induction false} FirstSeenMember(items: seq<Item>, it: Item)
    requires it in items
    ensures it.noticeId in FirstSeen(items)
  {
    assert items == items[..|items| - 1] + [items[|items| - 1]];
    if it in items[..|items| - 1] {
      FirstSeenMember(items[..|items| - 1], it);
    }
  }

  /** One notice for each notice id, in order of appearance, holding the rule names of its items in order. */
  ghost predicate Groups(notices: seq<ReportNotice>, items: seq<Item>) {
    && |notices| == |FirstSeen(items)|
    && forall i :: 0 <= i < |notices| ==>
        notices[i].id == FirstSeen(items)[i] && notices[i].ruleNames == RuleNamesOf(items, notices[i].id)
  }

  function Grouped(items: seq<Item>): (r: seq<ReportNotice>)
    ensures Groups(r, items)
  {
    seq(|FirstSeen(items)|, i requires 0 <= i < |FirstSeen(items)| =>
      ReportNotice(FirstSeen(items)[i], RuleNamesOf(items, FirstSeen(items)[i])))
  }

  lemma {:induction false} NamesMember(notices: seq<ReportNotice>, name: string)
    ensures name in Names(notices) <==> exists n <- notices :: name in NamesOf(n.ruleNames)
  {
    if notices != [] {
      NamesMember(notices[1..], name);
      assert notices == [notices[0]] + notices[1..];
    }
  }

  /** However the items are grouped into notices, they give the same set of names. */
  lemma GroupsKeepNames(notices: seq<ReportNotice>, items: seq<Item>)
    requires Groups(notices, items)
    ensures Names(notices) == ItemNames(items)
  {
    forall name
      ensures name in Names(notices) <==> name in ItemNames(items)
    {
      NamesMember(notices, name);
      if n :| n in notices && name in NamesOf(n.ruleNames) {
        var raw :| raw in n.ruleNames && TrimSpace(raw) != [] && TrimSpace(raw) == name;
        RuleNamesMember(items, n.id, raw);
      }
      if it :| it in items && TrimSpace(it.ruleName) != [] && TrimSpace(it.ruleName) == name {
        FirstSeenMember(items, it);
        var i :| 0 <= i < |notices| && FirstSeen(items)[i] == it.noticeId;
        var n := notices[i];
        assert n in notices;
        RuleNamesMember(items, n.id, it.ruleName);
        assert it.ruleName in n.ruleNames;
      }
    }
  }

  lemma RuleNamesStep(items: seq<Item>, k: nat, n: Id)
    requires k < |items|
    ensures RuleNamesOf(items[..k + 1], n) ==
      RuleNamesOf(items[..k], n) + (if items[k].noticeId == n then [items[k].ruleName] else [])
  {
    assert items[..k + 1][..k] == items[..k];
  }

  /** The notices built from the first k items, with their index. */
  ghost predicate Loaded(notices: seq<ReportNotice>, byNotice: map<Id, nat>, items: seq<Item>, k: nat)
    requires k <= |items|
  {
    && Groups(notices, items[..k])
    && (forall n: Id :: n in byNotice <==> n in FirstSeen(items[..k]))
    && (forall n: Id :: n in byNotice ==> byNotice[n] < |notices| && notices[byNotice[n]].id == n)
    && (forall i :: 0 <= i < |notices| ==> notices[i].id in byNotice && byNotice[notices[i].id] == i)
  }

  lemma LoadAgain(notices: seq<ReportNotice>, byNotice: map<Id, nat>, items: seq<Item>, k: nat)
    requires k < |items| && Loaded(notices, byNotice, items, k)
    requires items[k].noticeId in byNotice
    ensures byNotice[items[k].noticeId] < |notices|
    ensures var at := byNotice[items[k].noticeId];
      Loaded(notices[at := notices[at].(ruleNames := notices[at].ruleNames + [items[k].ruleName])], byNotice, items,
             k + 1)
  {
    hide RuleNamesOf;
    var at := byNotice[items[k].noticeId];
    var grown := notices[at := notices[at].(ruleNames := notices[at].ruleNames + [items[k].ruleName])];
    assert items[..k + 1][..k] == items[..k];
    forall i | 0 <= i < |grown|
      ensures grown[i].id == FirstSeen(items[..k + 1])[i]
        && grown[i].ruleNames == RuleNamesOf(items[..k + 1], grown[i].id)
    {
      RuleNamesStep(items, k, notices[i].id);
    }
  }

  lemma LoadNew(notices: seq<ReportNotice>, byNotice: map<Id, nat>, items: seq<Item>, k: nat)
    requires k < |items| && Loaded(notices, byNotice, items, k)
    requires items[k].noticeId !in byNotice
    ensures var n := items[k].noticeId;
      Loaded(notices + [ReportNotice(n, [items[k].ruleName])], byNotice[n := |notices|], items, k + 1)
  {
    hide RuleNamesOf;
    var n := items[k].noticeId;
    var grown := notices + [ReportNotice(n, [items[k].ruleName])];
    assert items[..k + 1][..k] == items[..k];
    NoRuleNames(items[..k], n);
    forall i | 0 <= i < |grown|
      ensures grown[i].id == FirstSeen(items[..k + 1])[i]
        && grown[i].ruleNames == RuleNamesOf(items[..k + 1], grown[i].id)
    {
      RuleNamesStep(items, k, grown[i].id);
    }
  }

  lemma NoRuleNames(items: seq<Item>, n: Id)
    requires n !in FirstSeen(items)
    ensures RuleNamesOf(items, n) == []
  {
    if items != [] {
      NoRuleNames(items[..|items| - 1], n);
    }
  }

  /** Loading the items in order: a new notice at its first item, and every item's rule under its notice. */
  method LoadReportNotices(items: seq<Item>) returns (notices: seq<ReportNotice>)
    ensures notices == Grouped(items)
  {
    notices := [];
    var byNotice: map<Id, nat> := map[];
    for k := 0 to |items|
      invariant Loaded(notices, byNotice, items, k)
    {
      hide Loaded;
      var it := items[k];
      if it.noticeId !in byNotice {
        LoadNew(notices, byNotice, items, k);
        byNotice := byNotice[it.noticeId := |notices|];
        notices := notices + [ReportNotice(it.noticeId, [])];
      } else {
        LoadAgain(notices, byNotice, items, k);
      }
      var at := byNotice[it.noticeId];
      notices := notices[at := notices[at].(ruleNames := notices[at].ruleNames + [it.ruleName])];
    }
    assert items[..|items|] == items;
  }
}
