/** What the label of a report is. */
module ReportLabels {
  import opened Basics
  import opened Strings
  import opened ReportPaths

  /** The rule names that count are the nonblank ones, without the space around them. */
  lemma {:induction false} NamesMean(notices: seq<ReportNotice>, name: string)
    ensures name in Names(notices) <==>
      name != "" && exists i, j :: 0 <= i < |notices| && RuleAt(notices[i], j, name)
    decreases |notices|
  {
    if notices != [] {
      NamesMean(notices[1..], name);
      if name in NamesOf(notices[0].ruleNames) {
        var raw :| raw in notices[0].ruleNames && TrimSpace(raw) == name;
        var j :| 0 <= j < |notices[0].ruleNames| && notices[0].ruleNames[j] == raw;
        assert RuleAt(notices[0], j, name);
      }
      if name in Names(notices[1..]) {
        var i, j :| 0 <= i < |notices[1..]| && RuleAt(notices[1..][i], j, name);
        assert RuleAt(notices[i + 1], j, name);
      }
      if name != "" {
        if i, j :| 0 <= i < |notices| && RuleAt(notices[i], j, name) {
          if i == 0 {
            assert notices[0].ruleNames[j] in notices[0].ruleNames;
          } else {
            assert RuleAt(notices[1..][i - 1], j, name);
          }
        }
      }
    }
  }

  predicate RuleAt(n: ReportNotice, j: int, name: string) {
    0 <= j < |n.ruleNames| && TrimSpace(n.ruleNames[j]) == name
  }

  // ---- the notices of a report ----

  /** Positions of a sequence, in increasing order. */
  ghost predicate Ascending(at: seq<nat>, n: nat) {
    (forall i :: 0 <= i < |at| ==> at[i] < n) && (forall i, j :: 0 <= i < j < |at| ==> at[i] < at[j])
  }

  lemma NextAscends(at: seq<nat>, n: nat)
    requires Ascending(at, n)
    ensures Ascending(at, n + 1) && Ascending(at + [n], n + 1)
  {
  }

  lemma NoPositions()
    ensures Ascending([], 0)
  {
  }

  /** Item k is the first of this notice. */
  ghost predicate FirstOf(items: seq<Item>, k: int, notice: Id) {
    0 <= k < |items| && items[k].noticeId == notice && forall j :: 0 <= j < k ==> items[j].noticeId != notice
  }

  lemma FirstOfMore(items: seq<Item>, n: nat, k: int, notice: Id)
    requires n <= |items| && FirstOf(items[..n], k, notice)
    ensures FirstOf(items, k, notice)
  {
    assert forall j :: 0 <= j < n ==> items[..n][j] == items[j];
  }

  /** The notices of a report are those of its items, each once, in the order in which they first appear. */
  lemma {:induction false} NoticesInOrder(items: seq<Item>) returns (at: seq<nat>)
    ensures Ascending(at, |items|) && |FirstSeen(items)| == |at|
    ensures forall i :: 0 <= i < |at| ==> FirstOf(items, at[i], FirstSeen(items)[i])
    ensures forall it <- items :: it.noticeId in FirstSeen(items)
    decreases |items|
  {
    hide Ascending, FirstOf;
    forall it | it in items ensures it.noticeId in FirstSeen(items) {
      FirstSeenMember(items, it);
    }
    at := [];
    if items == [] {
      NoPositions();
    } else {
      var last := |items| - 1;
      var before := NoticesInOrder(items[..last]);
      NextAscends(before, last);
      forall i | 0 <= i < |before| ensures FirstOf(items, before[i], FirstSeen(items[..last])[i]) {
        FirstOfMore(items, last, before[i], FirstSeen(items[..last])[i]);
      }
      if items[last].noticeId in FirstSeen(items[..last]) {
        at := before;
      } else {
        at := before + [last];
        NewNotice(items);
      }
    }
  }

  lemma NewNotice(items: seq<Item>)
    requires items != [] && items[|items| - 1].noticeId !in FirstSeen(items[..|items| - 1])
    ensures FirstOf(items, |items| - 1, items[|items| - 1].noticeId)
  {
    var last := |items| - 1;
    forall j | 0 <= j < last ensures items[j].noticeId != items[last].noticeId {
      FirstSeenMember(items[..last], items[..last][j]);
    }
  }

  /** Item k is of this notice and has this rule name. */
  predicate NamedAt(items: seq<Item>, k: int, notice: Id, name: string) {
    0 <= k < |items| && items[k].noticeId == notice && items[k].ruleName == name
  }

  /** And a notice has the rule names of its items, in their order. */
  lemma {:induction false} NamesInOrder(items: seq<Item>, notice: Id) returns (at: seq<nat>)
    ensures Ascending(at, |items|) && |RuleNamesOf(items, notice)| == |at|
    ensures forall i :: 0 <= i < |at| ==> NamedAt(items, at[i], notice, RuleNamesOf(items, notice)[i])
    ensures forall k: nat :: k < |items| && items[k].noticeId == notice ==> k in at
    decreases |items|
  {
    hide Ascending, NamedAt;
    at := [];
    if items == [] {
      NoPositions();
    } else {
      var last := |items| - 1;
      var before := NamesInOrder(items[..last], notice);
      NextAscends(before, last);
      forall i | 0 <= i < |before| ensures NamedAt(items, before[i], notice, RuleNamesOf(items[..last], notice)[i]) {
        NamedAtMore(items, last, before[i], notice, RuleNamesOf(items[..last], notice)[i]);
      }
      at := if items[last].noticeId == notice then before + [last] else before;
      forall k: nat | k < |items| && items[k].noticeId == notice ensures k in at {
        if k < last {
          assert items[..last][k] == items[k];
        }
      }
      assert items[last].noticeId == notice ==> NamedAt(items, last, notice, items[last].ruleName) by {
        LastIsNamed(items);
      }
    }
  }

  lemma NamedAtMore(items: seq<Item>, n: nat, k: int, notice: Id, name: string)
    requires n <= |items| && NamedAt(items[..n], k, notice, name)
    ensures NamedAt(items, k, notice, name)
  {
  }

  lemma LastIsNamed(items: seq<Item>)
    requires items != []
    ensures NamedAt(items, |items| - 1, items[|items| - 1].noticeId, items[|items| - 1].ruleName)
  {
  }

  // ---- the path ----

  /** The path of a report from before the present format. */
  function Legacy(tenant: string, id: string, due: Due, trigger: Trigger): string {
    tenant + "/" + due.year + "/" + due.month + "/namo-" + due.stamp
    + (match trigger case Manual => "-" + id case Scheduled(_) => "") + ".html"
  }

  /** tenant/year/month/report/day_label보고서.html */
  function Current(tenant: string, id: string, due: Due, text: string): string {
    tenant + "/" + due.year + "/" + due.month + "/" + id + "/" + due.day + "_" + text + "보고서.html"
  }

  lemma JoinFour(a: string, b: string, c: string, d: string)
    ensures Join([a, b, c, d]) == a + "/" + b + "/" + c + "/" + d
  {
    assert Join([c, d]) == c + "/" + Join([d]);
    assert Join([b, c, d]) == b + "/" + Join([c, d]);
    assert Join([a, b, c, d]) == a + "/" + Join([b, c, d]);
  }

  lemma JoinFive(a: string, b: string, c: string, d: string, e: string)
    ensures Join([a, b, c, d, e]) == a + "/" + b + "/" + c + "/" + d + "/" + e
  {
    JoinFour(b, c, d, e);
    assert Join([a, b, c, d, e]) == a + "/" + Join([b, c, d, e]);
  }

  /**
   A report keeps the path of the older format that it was stored with; any other is written under its
   tenant, its month and its id, with its day and label. Unsafe ids and a zero due time are refused.
   */
  lemma PathMeans(tenant: string, id: string, due: Due, trigger: Trigger, stored: string, names: set<string>)
    ensures var path := RelativePath(tenant, id, due, trigger, stored, names);
      && (path.Some? <==> SafeId(tenant) && SafeId(id) && due.at != 0)
      && (path.Some? ==>
            path.value == if stored == Legacy(tenant, id, due, trigger) then stored
                          else Current(tenant, id, due, Label(names)))
  {
    hide Label, SafeId, Join;
    var name := "namo-" + due.stamp + (if trigger.Manual? then "-" + id else "") + ".html";
    JoinFour(tenant, due.year, due.month, name);
    JoinFive(tenant, due.year, due.month, id, due.day + "_" + Label(names) + SUFFIX);
    assert tenant + "/" + due.year + "/" + due.month + "/" + name == Legacy(tenant, id, due, trigger);
  }

  // ---- the label ----

  /** With no name, or with two, the label is the merged one. */
  lemma MergedLabel(names: set<string>)
    ensures names == {} ==> Label(names) == "통합"
    ensures (exists a, b :: a in names && b in names && a != b) ==> Label(names) == "통합"
  {
  }

  /** Unsafe in a file name are the control characters and these nine. */
  lemma UnsafeMeans(c: char)
    ensures Unsafe(c) <==>
      || (c as int < 32 || 127 <= c as int < 160)
      || c in {'/', '\\', ':', '*', '?', '"', '<', '>', '|'}
  {
  }

  /** The name with every unsafe character replaced by an underscore. */
  ghost predicate Replaced(name: string, clean: string) {
    && |clean| == |name|
    && forall i :: 0 <= i < |name| ==> clean[i] == if Unsafe(name[i]) then '_' else name[i]
  }

  predicate Fits(s: string) {
    |s| <= 60 && ByteLen(s) <= 220
  }

  /** The longest prefix of s that fits. */
  ghost predicate LongestFit(s: string, r: string) {
    r <= s && Fits(r) && forall n :: |r| < n <= |s| ==> !Fits(s[..n])
  }

  lemma {:induction false} ByteLenGrows(s: string, m: nat, n: nat)
    requires m <= n <= |s|
    ensures ByteLen(s[..m]) <= ByteLen(s[..n])
  {
    ByteLenConcat(s[..m], s[m..n]);
    assert s[..m] + s[m..n] == s[..n];
  }

  lemma {:induction false} ClipIsLongest(s: string, count: nat, bytes: nat)
    requires count <= 60 && bytes <= 220
    ensures var r := Clip(s, count, bytes);
      && r <= s && count + |r| <= 60 && bytes + ByteLen(r) <= 220
      && (|r| < |s| ==> count + |r| == 60 || bytes + ByteLen(s[..|r| + 1]) > 220)
    decreases |s|
  {
    if s != [] {
      assert s[..1][1..] == "";
      if !(count == 60 || bytes + RuneLen(s[0]) > 220) {
        ClipIsLongest(s[1..], count + 1, bytes + RuneLen(s[0]));
        var rest := Clip(s[1..], count + 1, bytes + RuneLen(s[0]));
        assert ([s[0]] + rest)[1..] == rest;
        if |rest| < |s| - 1 {
          assert s[..|rest| + 2][1..] == s[1..][..|rest| + 1];
        }
      }
    }
  }

  lemma ClipFits(s: string)
    ensures LongestFit(s, Clip(s, 0, 0))
  {
    ClipIsLongest(s, 0, 0);
    var r := Clip(s, 0, 0);
    forall n | |r| < n <= |s| ensures !Fits(s[..n]) {
      ByteLenGrows(s, |r| + 1, n);
    }
  }

  /**
   With one name the label is the longest prefix, within sixty characters and 220 bytes, of the name with
   its unsafe characters replaced and its outer spaces and dots dropped; only when nothing is left of it
   is the label the merged one.
   */
  lemma OneNameLabel(name: string) returns (clean: string, plain: string)
    ensures Replaced(name, clean) && TrimmedOf(clean, IsEdge, plain)
    ensures plain == "" ==> Label({name}) == "통합"
    ensures plain != "" ==> LongestFit(plain, Label({name})) && Label({name}) != ""
  {
    LabelOfAtMostOne(name);
    clean := Sanitize(name);
    plain := DropRight(DropLeft(clean, IsEdge), IsEdge);
    TrimmingMeans(clean, IsEdge);
    ClipFits(plain);
    if plain != "" {
      assert plain[..1][1..] == "";
      assert Fits(plain[..1]);
    }
  }

  /** So a name that is safe, has no space or dot at its ends and fits is its own label. */
  lemma PlainNameIsItsLabel(name: string)
    requires name != "" && Fits(name) && !IsEdge(name[0]) && !IsEdge(name[|name| - 1])
    requires forall c <- name :: !Unsafe(c)
    ensures Label({name}) == name
  {
    var clean, plain := OneNameLabel(name);
    assert forall i :: 0 <= i < |name| ==> name[i] in name;
    assert clean == name;
    assert Dropped(name, IsEdge, 0, |name|) && name == name[0..|name|];
    TrimmedOnce(name, IsEdge, plain, name);
    assert name[..|name|] == name;
  }
}
