/** The report engine (src/services/report.service.ts). The reports read the
    store's entry sequence, which is passed in explicitly. */
module Reports {
  import opened Optional
  import opened Sequences
  import opened PettyCashTypes

  /** An inclusive range of instants. */
  datatype ReportPeriod = ReportPeriod(startDate: Time, endDate: Time)

  /** A per-key aggregate. `head` is the category of a CategoryReport and the
      requester of a RequesterReport. */
  datatype GroupReport<H> = GroupReport(head: H, totalAmount: int, count: nat, entries: seq<Entry>)

  type CategoryReport = GroupReport<ExpenseCategory>

  type RequesterReport = GroupReport<Requester>

  datatype SummaryReport = SummaryReport(
    totalAmount: int,
    totalEntries: nat,
    categoryReports: seq<CategoryReport>,
    requesterReports: seq<RequesterReport>,
    period: ReportPeriod)

  /** The period test shared by every report: inclusive at both ends. */
  predicate InPeriod(e: Entry, p: ReportPeriod)
    ensures InPeriod(e, p) ==> p.startDate <= p.endDate
  {
    p.startDate <= e.date <= p.endDate
  }

  function InPeriodTest(p: ReportPeriod): Entry -> bool {
    (e: Entry) => InPeriod(e, p)
  }

  /** The entries dated inside the period, in store order. */
  function PeriodEntries(s: seq<Entry>, p: ReportPeriod): (r: seq<Entry>)
    ensures |r| <= |s|
    ensures forall x :: x in r <==> x in s && p.startDate <= x.date <= p.endDate
    ensures p.endDate < p.startDate ==> r == []
  {
    FilterEmpty(s, InPeriodTest(p));
    Filter(s, InPeriodTest(p))
  }

  /** The period filter keeps exactly the entries with
      `startDate <= date <= endDate`, in store order. */
  lemma PeriodEntriesExact(s: seq<Entry>, p: ReportPeriod)
    ensures |PeriodEntries(s, p)| == |Matches(s, InPeriodTest(p))|
    ensures forall k :: 0 <= k < |PeriodEntries(s, p)| ==>
      PeriodEntries(s, p)[k] == s[Matches(s, InPeriodTest(p))[k]]
  {
    FilterSelectsMatches(s, InPeriodTest(p));
  }

  /** `entries.reduce((sum, e) => sum + e.amount, 0)`. */
  function Sum(s: seq<Entry>): (r: int)
    ensures (forall i :: 0 <= i < |s| ==> s[i].amount >= 0) ==> r >= 0
    ensures (forall i :: 0 <= i < |s| ==> s[i].amount == 0) ==> r == 0
    decreases |s|
  {
    if s == [] then 0 else Sum(s[..|s| - 1]) + s[|s| - 1].amount
  }

  function CategoryOf(e: Entry): ExpenseCategory { e.category }

  function CategoryKey(c: ExpenseCategory): string { c.id }

  function RequesterOf(e: Entry): Requester { e.requester }

  function RequesterKey(r: Requester): string { r.id }

  /** The test "this entry's group key is k". */
  function HasKey<H>(head: Entry -> H, keyOf: H -> string, k: string): Entry -> bool {
    (e: Entry) => keyOf(head(e)) == k
  }

  /** The position of the group keyed `k` (the source's `Map.has`/`Map.get`). */
  function GroupIndex<H>(groups: seq<GroupReport<H>>, keyOf: H -> string, k: string): (r: Option<nat>)
    ensures r.Some? ==> r.value < |groups| && keyOf(groups[r.value].head) == k
    ensures r.None? <==> forall i :: 0 <= i < |groups| ==> keyOf(groups[i].head) != k
  {
    FirstIndex(groups, (g: GroupReport<H>) => keyOf(g.head) == k)
  }

  /** One step of the source's `forEach`: open a group for a new key at the
      end, then add the entry to its key's group. */
  function AddToGroups<H>(groups: seq<GroupReport<H>>, e: Entry, head: Entry -> H, keyOf: H -> string)
    : (r: seq<GroupReport<H>>)
    ensures |groups| <= |r| <= |groups| + 1
  {
    match GroupIndex(groups, keyOf, keyOf(head(e)))
    case None => groups + [GroupReport(head(e), e.amount, 1, [e])]
    case Some(i) => groups[i := Grow(groups[i], e)]
  }

  /** The `+=` and `push` that add one entry to its group. */
  function Grow<H>(g: GroupReport<H>, e: Entry): (r: GroupReport<H>)
    ensures r.head == g.head
    ensures g.count == |g.entries| ==> r.count == |r.entries|
    ensures g.totalAmount == Sum(g.entries) ==> r.totalAmount == Sum(r.entries)
  {
    assert (g.entries + [e])[..|g.entries|] == g.entries;
    g.(totalAmount := g.totalAmount + e.amount, count := g.count + 1, entries := g.entries + [e])
  }

  /** The groups the summary builds from `s`, in the order the map holds them. */
  function GroupBy<H>(s: seq<Entry>, head: Entry -> H, keyOf: H -> string): (r: seq<GroupReport<H>>)
    ensures s != [] ==> r != []
    decreases |s|
  {
    if s == [] then [] else AddToGroups(GroupBy(s[..|s| - 1], head, keyOf), s[|s| - 1], head, keyOf)
  }

  /** There are never more groups than entries. */
  lemma {:induction false} GroupByAtMost<H>(s: seq<Entry>, head: Entry -> H, keyOf: H -> string)
    ensures |GroupBy(s, head, keyOf)| <= |s|
    decreases |s|
  {
    if s != [] {
      GroupByAtMost(s[..|s| - 1], head, keyOf);
    }
  }

  /** The group key of every entry, in order. */
  function EntryKeys<H>(s: seq<Entry>, head: Entry -> H, keyOf: H -> string): (r: seq<string>)
    ensures |r| == |s|
    ensures forall j :: 0 <= j < |s| ==> r[j] == keyOf(head(s[j]))
    decreases |s|
  {
    if s == [] then [] else EntryKeys(s[..|s| - 1], head, keyOf) + [keyOf(head(s[|s| - 1]))]
  }

  function GroupKeys<H>(groups: seq<GroupReport<H>>, keyOf: H -> string): seq<string> {
    seq(|groups|, i requires 0 <= i < |groups| => keyOf(groups[i].head))
  }

  /** The distinct keys of `ks`, each listed where it first occurs. */
  function Dedup(ks: seq<string>): (r: seq<string>)
    ensures forall k :: k in r <==> k in ks
    ensures forall i, j :: 0 <= i < j < |r| ==> r[i] != r[j]
    decreases |ks|
  {
    if ks == [] then []
    else
      var d := Dedup(ks[..|ks| - 1]);
      assert ks == ks[..|ks| - 1] + [ks[|ks| - 1]];
      if ks[|ks| - 1] in d then d else d + [ks[|ks| - 1]]
  }

  /** The listed keys appear in order of first occurrence: the first
      occurrence of an earlier key comes before any occurrence of a later one. */
  lemma {:induction false} DedupFirstSeenOrder(ks: seq<string>, i: nat, j: nat)
    requires i < j < |Dedup(ks)|
    ensures exists a :: 0 <= a < |ks| && ks[a] == Dedup(ks)[i] &&
                        (forall b :: 0 <= b <= a ==> ks[b] != Dedup(ks)[j])
    decreases |ks|
  {
    var ks' := ks[..|ks| - 1];
    var d := Dedup(ks');
    var x := ks[|ks| - 1];
    if x in d {
      DedupFirstSeenOrder(ks', i, j);
      var a :| 0 <= a < |ks'| && ks'[a] == d[i] && (forall b :: 0 <= b <= a ==> ks'[b] != d[j]);
      assert ks[a] == Dedup(ks)[i];
    } else if j < |d| {
      DedupFirstSeenOrder(ks', i, j);
      var a :| 0 <= a < |ks'| && ks'[a] == d[i] && (forall b :: 0 <= b <= a ==> ks'[b] != d[j]);
      assert ks[a] == Dedup(ks)[i];
    } else {
      assert d[i] in d;
      var a :| 0 <= a < |ks'| && ks'[a] == d[i];
      forall b | 0 <= b <= a ensures ks[b] != Dedup(ks)[j] {
        assert ks[b] == ks'[b];
      }
    }
  }

  /** The facts the summary promises about one group built from `s`. */
  ghost predicate GroupOf<H>(g: GroupReport<H>, s: seq<Entry>, head: Entry -> H, keyOf: H -> string) {
    && g.entries == Filter(s, HasKey(head, keyOf, keyOf(g.head)))
    && g.entries != []
    && g.head == head(g.entries[0])
    && g.count == |g.entries|
    && g.totalAmount == Sum(g.entries)
  }

  /** `groups` partitions `s` by key: one group per distinct key, listed in
      order of first occurrence, each holding exactly the entries with its key. */
  ghost predicate IsGrouping<H>(groups: seq<GroupReport<H>>, s: seq<Entry>, head: Entry -> H, keyOf: H -> string) {
    && GroupKeys(groups, keyOf) == Dedup(EntryKeys(s, head, keyOf))
    && forall i :: 0 <= i < |groups| ==> GroupOf(groups[i], s, head, keyOf)
  }

  lemma SumOne(e: Entry)
    ensures Sum([e]) == e.amount
  {
    assert [e][..0] == [];
  }

  lemma SumSnoc(s: seq<Entry>, e: Entry)
    ensures Sum(s + [e]) == Sum(s) + e.amount
  {
    assert (s + [e])[..|s|] == s;
  }

  lemma FilterSnoc<T(!new)>(s: seq<T>, x: T, keep: T -> bool)
    ensures Filter(s + [x], keep) == if keep(x) then Filter(s, keep) + [x] else Filter(s, keep)
  {
    assert (s + [x])[..|s|] == s;
  }

  lemma DedupSnoc(ks: seq<string>, k: string)
    ensures Dedup(ks + [k]) == if k in Dedup(ks) then Dedup(ks) else Dedup(ks) + [k]
  {
    assert (ks + [k])[..|ks|] == ks;
  }

  lemma EntryKeysSnoc<H>(s: seq<Entry>, e: Entry, head: Entry -> H, keyOf: H -> string)
    ensures EntryKeys(s + [e], head, keyOf) == EntryKeys(s, head, keyOf) + [keyOf(head(e))]
  {
    assert (s + [e])[..|s|] == s;
  }

  /** A group of another key is unaffected by a new entry. */
  lemma GroupOfOther<H>(g: GroupReport<H>, s: seq<Entry>, e: Entry, head: Entry -> H, keyOf: H -> string)
    requires GroupOf(g, s, head, keyOf)
    requires keyOf(g.head) != keyOf(head(e))
    ensures GroupOf(g, s + [e], head, keyOf)
  {
    FilterSnoc(s, e, HasKey(head, keyOf, keyOf(g.head)));
  }

  /** The group of the new entry's key takes it at the end. */
  lemma GroupOfSame<H>(g: GroupReport<H>, s: seq<Entry>, e: Entry, head: Entry -> H, keyOf: H -> string)
    requires GroupOf(g, s, head, keyOf)
    requires keyOf(g.head) == keyOf(head(e))
    ensures GroupOf(Grow(g, e), s + [e], head, keyOf)
  {
    FilterSnoc(s, e, HasKey(head, keyOf, keyOf(g.head)));
    SumSnoc(g.entries, e);
  }

  /** A key no earlier entry has opens a group holding just the new entry. */
  lemma GroupOfFirst<H>(s: seq<Entry>, e: Entry, head: Entry -> H, keyOf: H -> string)
    requires forall j :: 0 <= j < |s| ==> keyOf(head(s[j])) != keyOf(head(e))
    ensures GroupOf(GroupReport(head(e), e.amount, 1, [e]), s + [e], head, keyOf)
  {
    var keep := HasKey(head, keyOf, keyOf(head(e)));
    FilterEmpty(s, keep);
    FilterSnoc(s, e, keep);
    SumOne(e);
  }

  lemma AddToGroupsNew<H>(gs: seq<GroupReport<H>>, e: Entry, head: Entry -> H, keyOf: H -> string)
    requires GroupIndex(gs, keyOf, keyOf(head(e))).None?
    ensures AddToGroups(gs, e, head, keyOf) == gs + [GroupReport(head(e), e.amount, 1, [e])]
  {
  }

  lemma AddToGroupsExisting<H>(gs: seq<GroupReport<H>>, e: Entry, head: Entry -> H, keyOf: H -> string, i: nat)
    requires GroupIndex(gs, keyOf, keyOf(head(e))) == Some(i)
    ensures AddToGroups(gs, e, head, keyOf) == gs[i := Grow(gs[i], e)]
  {
  }

  lemma GroupKeysSameHead<H>(gs: seq<GroupReport<H>>, i: nat, g: GroupReport<H>, keyOf: H -> string)
    requires i < |gs| && g.head == gs[i].head
    ensures GroupKeys(gs[i := g], keyOf) == GroupKeys(gs, keyOf)
  {
  }

  /** A key missing from the distinct keys of `ks` is missing from `ks`. */
  lemma NotInDedup(keys: seq<string>, ks: seq<string>, k: string)
    requires keys == Dedup(ks)
    requires forall i :: 0 <= i < |keys| ==> keys[i] != k
    ensures k !in Dedup(ks)
    ensures forall j :: 0 <= j < |ks| ==> ks[j] != k
  {
    forall j | 0 <= j < |ks| ensures ks[j] != k {
      assert ks[j] in ks;
    }
  }

  /** Appending a group for a key no entry had keeps every group exact. */
  lemma NewGroupsOf<H>(gs: seq<GroupReport<H>>, s: seq<Entry>, e: Entry, head: Entry -> H, keyOf: H -> string)
    requires forall i :: 0 <= i < |gs| ==> GroupOf(gs[i], s, head, keyOf)
    requires forall i :: 0 <= i < |gs| ==> keyOf(gs[i].head) != keyOf(head(e))
    requires forall j :: 0 <= j < |s| ==> keyOf(head(s[j])) != keyOf(head(e))
    ensures var gs' := gs + [GroupReport(head(e), e.amount, 1, [e])];
      forall i :: 0 <= i < |gs'| ==> GroupOf(gs'[i], s + [e], head, keyOf)
  {
    var g := GroupReport(head(e), e.amount, 1, [e]);
    var gs' := gs + [g];
    forall i | 0 <= i < |gs| ensures GroupOf(gs'[i], s + [e], head, keyOf) {
      assert gs'[i] == gs[i];
      GroupOfOther(gs[i], s, e, head, keyOf);
    }
    assert gs'[|gs|] == g;
    GroupOfFirst(s, e, head, keyOf);
  }

  /** Appending a group for a new key lists the new key last. */
  lemma NewGroupKeys<H>(gs: seq<GroupReport<H>>, s: seq<Entry>, e: Entry, head: Entry -> H, keyOf: H -> string)
    requires GroupKeys(gs, keyOf) == Dedup(EntryKeys(s, head, keyOf))
    requires keyOf(head(e)) !in Dedup(EntryKeys(s, head, keyOf))
    ensures GroupKeys(gs + [GroupReport(head(e), e.amount, 1, [e])], keyOf) == Dedup(EntryKeys(s + [e], head, keyOf))
  {
    var k := keyOf(head(e));
    EntryKeysSnoc(s, e, head, keyOf);
    DedupSnoc(EntryKeys(s, head, keyOf), k);
    assert GroupKeys(gs + [GroupReport(head(e), e.amount, 1, [e])], keyOf) == GroupKeys(gs, keyOf) + [k];
  }

  /** Adding an entry whose key has no group yet. */
  lemma AddNewGroup<H>(gs: seq<GroupReport<H>>, s: seq<Entry>, e: Entry, head: Entry -> H, keyOf: H -> string)
    requires IsGrouping(gs, s, head, keyOf)
    requires GroupIndex(gs, keyOf, keyOf(head(e))).None?
    ensures IsGrouping(AddToGroups(gs, e, head, keyOf), s + [e], head, keyOf)
  {
    NotInDedup(GroupKeys(gs, keyOf), EntryKeys(s, head, keyOf), keyOf(head(e)));
    NewGroupsOf(gs, s, e, head, keyOf);
    NewGroupKeys(gs, s, e, head, keyOf);
    AddToGroupsNew(gs, e, head, keyOf);
  }

  /** Adding an entry to the existing group of its key. */
  lemma {:induction false} AddToExistingGroup<H>(gs: seq<GroupReport<H>>, s: seq<Entry>, e: Entry,
                                                 head: Entry -> H, keyOf: H -> string, i: nat)
    requires IsGrouping(gs, s, head, keyOf)
    requires GroupIndex(gs, keyOf, keyOf(head(e))) == Some(i)
    ensures IsGrouping(AddToGroups(gs, e, head, keyOf), s + [e], head, keyOf)
  {
    var k := keyOf(head(e));
    var g := gs[i];
    var gs' := gs[i := Grow(g, e)];
    var ks := EntryKeys(s, head, keyOf);
    var keys := GroupKeys(gs, keyOf);
    assert forall j :: 0 <= j < |gs'| ==> GroupOf(gs'[j], s + [e], head, keyOf) by {
      GroupOfSame(g, s, e, head, keyOf);
      forall j | 0 <= j < |gs'| ensures GroupOf(gs'[j], s + [e], head, keyOf) {
        if j != i {
          assert keys[j] != keys[i];
          GroupOfOther(gs[j], s, e, head, keyOf);
        }
      }
    }
    assert GroupKeys(gs', keyOf) == Dedup(EntryKeys(s + [e], head, keyOf)) by {
      GroupKeysSameHead(gs, i, Grow(g, e), keyOf);
      assert k == keys[i];
      EntryKeysSnoc(s, e, head, keyOf);
      DedupSnoc(ks, k);
    }
    AddToGroupsExisting(gs, e, head, keyOf, i);
  }

  /** The summary's grouping is a partition by key in first-seen order. */
  lemma {:induction false} GroupByIsGrouping<H>(s: seq<Entry>, head: Entry -> H, keyOf: H -> string)
    ensures IsGrouping(GroupBy(s, head, keyOf), s, head, keyOf)
    decreases |s|
  {
    if s == [] {
      assert GroupKeys([], keyOf) == [];
    } else {
      var s' := s[..|s| - 1];
      var e := s[|s| - 1];
      assert s == s' + [e];
      GroupByIsGrouping(s', head, keyOf);
      var gs := GroupBy(s', head, keyOf);
      match GroupIndex(gs, keyOf, keyOf(head(e)))
      case None => AddNewGroup(gs, s', e, head, keyOf);
      case Some(i) => AddToExistingGroup(gs, s', e, head, keyOf, i);
    }
  }

  /** The group keys are the distinct entry keys in first-seen order. */
  lemma GroupByKeys<H>(s: seq<Entry>, head: Entry -> H, keyOf: H -> string)
    ensures GroupKeys(GroupBy(s, head, keyOf), keyOf) == Dedup(EntryKeys(s, head, keyOf))
  {
    GroupByIsGrouping(s, head, keyOf);
  }

  /** Groups are listed in order of first appearance: the first entry with
      an earlier group's key comes before every entry with a later group's key. */
  lemma GroupsInFirstSeenOrder<H>(s: seq<Entry>, head: Entry -> H, keyOf: H -> string, i: nat, j: nat)
    requires i < j < |GroupBy(s, head, keyOf)|
    ensures var gs := GroupBy(s, head, keyOf);
      exists a :: 0 <= a < |s| && keyOf(head(s[a])) == keyOf(gs[i].head) &&
                  (forall b :: 0 <= b <= a ==> keyOf(head(s[b])) != keyOf(gs[j].head))
  {
    var gs := GroupBy(s, head, keyOf);
    GroupByKeys(s, head, keyOf);
    var ks := EntryKeys(s, head, keyOf);
    var keys := GroupKeys(gs, keyOf);
    assert keys[i] == keyOf(gs[i].head) && keys[j] == keyOf(gs[j].head);
    DedupFirstSeenOrder(ks, i, j);
    var a :| 0 <= a < |ks| && ks[a] == keys[i] && (forall b :: 0 <= b <= a ==> ks[b] != keys[j]);
    assert keyOf(head(s[a])) == keyOf(gs[i].head);
  }

  /** Every entry lies in exactly one group: the group of its own key. */
  lemma EntryInOneGroup<H>(s: seq<Entry>, head: Entry -> H, keyOf: H -> string, j: nat)
    requires j < |s|
    ensures var gs := GroupBy(s, head, keyOf);
      var g := GroupIndex(gs, keyOf, keyOf(head(s[j])));
      g.Some? && forall i :: 0 <= i < |gs| ==> (s[j] in gs[i].entries <==> i == g.value)
  {
    var gs := GroupBy(s, head, keyOf);
    var k := keyOf(head(s[j]));
    GroupByIsGrouping(s, head, keyOf);
    var ks := EntryKeys(s, head, keyOf);
    var keys := GroupKeys(gs, keyOf);
    assert ks[j] in ks;
    assert k in keys;
    var g := GroupIndex(gs, keyOf, k);
    assert g.Some? by {
      var i0 :| 0 <= i0 < |keys| && keys[i0] == k;
      assert keyOf(gs[i0].head) == k;
    }
    forall i | 0 <= i < |gs| ensures s[j] in gs[i].entries <==> i == g.value {
      assert GroupOf(gs[i], s, head, keyOf);
      assert s[j] in s;
      assert s[j] in gs[i].entries <==> keyOf(gs[i].head) == k;
      assert keys[i] == keyOf(gs[i].head) && keys[g.value] == k;
    }
  }

  /** Sum of the group totals. */
  function TotalOf<H>(gs: seq<GroupReport<H>>): int
    decreases |gs|
  {
    if gs == [] then 0 else TotalOf(gs[..|gs| - 1]) + gs[|gs| - 1].totalAmount
  }

  /** Sum of the group counts. */
  function CountOf<H>(gs: seq<GroupReport<H>>): int
    decreases |gs|
  {
    if gs == [] then 0 else CountOf(gs[..|gs| - 1]) + gs[|gs| - 1].count
  }

  lemma {:induction false} TotalsOfUpdate<H>(gs: seq<GroupReport<H>>, i: nat, g: GroupReport<H>)
    requires i < |gs|
    ensures TotalOf(gs[i := g]) == TotalOf(gs) - gs[i].totalAmount + g.totalAmount
    ensures CountOf(gs[i := g]) == CountOf(gs) - gs[i].count + g.count
    decreases |gs|
  {
    var n := |gs|;
    if i == n - 1 {
      assert gs[i := g][..n - 1] == gs[..n - 1];
    } else {
      assert gs[i := g][..n - 1] == gs[..n - 1][i := g];
      TotalsOfUpdate(gs[..n - 1], i, g);
    }
  }

  /** Group totals add up to the overall total and group counts to the
      number of entries. */
  lemma {:induction false} GroupByTotals<H>(s: seq<Entry>, head: Entry -> H, keyOf: H -> string)
    ensures TotalOf(GroupBy(s, head, keyOf)) == Sum(s)
    ensures CountOf(GroupBy(s, head, keyOf)) == |s|
    decreases |s|
  {
    if s != [] {
      var s' := s[..|s| - 1];
      var e := s[|s| - 1];
      GroupByTotals(s', head, keyOf);
      var gs := GroupBy(s', head, keyOf);
      assert GroupBy(s, head, keyOf) == AddToGroups(gs, e, head, keyOf);
      match GroupIndex(gs, keyOf, keyOf(head(e)))
      case None =>
        AddToGroupsNew(gs, e, head, keyOf);
        var gs' := gs + [GroupReport(head(e), e.amount, 1, [e])];
        assert gs'[..|gs'| - 1] == gs;
      case Some(i) =>
        AddToGroupsExisting(gs, e, head, keyOf, i);
        TotalsOfUpdate(gs, i, Grow(gs[i], e));
    }
  }

  /** Opening an empty group for a new key and then growing it is the
      same as appending the one-entry group. */
  lemma OpenThenGrow<H>(gs: seq<GroupReport<H>>, e: Entry, head: Entry -> H, keyOf: H -> string)
    requires GroupIndex(gs, keyOf, keyOf(head(e))).None?
    ensures var started := gs + [GroupReport(head(e), 0, 0, [])];
      started[|gs| := Grow(started[|gs|], e)] == AddToGroups(gs, e, head, keyOf)
  {
    AddToGroupsNew(gs, e, head, keyOf);
    assert [] + [e] == [e];
  }

  /** The `forEach` loop over the filtered entries that fills one `Map`. */
  method GroupEntries<H>(entries: seq<Entry>, head: Entry -> H, keyOf: H -> string)
    returns (groups: seq<GroupReport<H>>)
    ensures groups == GroupBy(entries, head, keyOf)
  {
    groups := [];
    var i := 0;
    while i < |entries|
      invariant 0 <= i <= |entries|
      invariant groups == GroupBy(entries[..i], head, keyOf)
    {
      var entry := entries[i];
      var index := GroupIndex(groups, keyOf, keyOf(head(entry)));
      ghost var before := groups;
      if index.None? {
        groups := groups + [GroupReport(head(entry), 0, 0, [])];
        index := Some(|groups| - 1);
        OpenThenGrow(before, entry, head, keyOf);
      } else {
        AddToGroupsExisting(before, entry, head, keyOf, index.value);
      }
      var report := groups[index.value];
      groups := groups[index.value := Grow(report, entry)];
      assert entries[..i + 1][..i] == entries[..i];
      i := i + 1;
    }
    assert entries[..i] == entries;
  }

  /** `generateSummaryReport`. */
  method GenerateSummaryReport(allEntries: seq<Entry>, period: ReportPeriod) returns (r: SummaryReport)
    ensures r.period == period
    ensures r.totalAmount == Sum(PeriodEntries(allEntries, period))
    ensures r.totalEntries == |PeriodEntries(allEntries, period)|
    ensures r.categoryReports == GroupBy(PeriodEntries(allEntries, period), CategoryOf, CategoryKey)
    ensures r.requesterReports == GroupBy(PeriodEntries(allEntries, period), RequesterOf, RequesterKey)
    ensures IsGrouping(r.categoryReports, PeriodEntries(allEntries, period), CategoryOf, CategoryKey)
    ensures IsGrouping(r.requesterReports, PeriodEntries(allEntries, period), RequesterOf, RequesterKey)
    ensures TotalOf(r.categoryReports) == r.totalAmount && CountOf(r.categoryReports) == r.totalEntries
    ensures TotalOf(r.requesterReports) == r.totalAmount && CountOf(r.requesterReports) == r.totalEntries
  {
    var filtered := PeriodEntries(allEntries, period);
    var totalAmount := Sum(filtered);
    var categoryReports := GroupEntries(filtered, CategoryOf, CategoryKey);
    var requesterReports := GroupEntries(filtered, RequesterOf, RequesterKey);
    GroupByIsGrouping(filtered, CategoryOf, CategoryKey);
    GroupByIsGrouping(filtered, RequesterOf, RequesterKey);
    GroupByTotals(filtered, CategoryOf, CategoryKey);
    GroupByTotals(filtered, RequesterOf, RequesterKey);
    r := SummaryReport(totalAmount, |filtered|, categoryReports, requesterReports, period);
  }

  /** The test the per-key reports filter by: key `k` and dated inside the period. */
  function KeyInPeriod<H>(head: Entry -> H, keyOf: H -> string, k: string, p: ReportPeriod): Entry -> bool {
    (e: Entry) => keyOf(head(e)) == k && InPeriod(e, p)
  }

  /** The body shared by `generateCategoryReport` and `generateRequesterReport`:
      None when nothing matches, otherwise the matches, their count and sum,
      and the first match's head. */
  function KeyReport<H>(all: seq<Entry>, head: Entry -> H, keyOf: H -> string, k: string, p: ReportPeriod)
    : (r: Option<GroupReport<H>>)
    ensures r.None? <==> forall j :: 0 <= j < |all| ==> !(keyOf(head(all[j])) == k && InPeriod(all[j], p))
    ensures r.Some? ==> r.value.entries == Filter(all, KeyInPeriod(head, keyOf, k, p))
    ensures r.Some? ==> r.value.count == |r.value.entries| && r.value.totalAmount == Sum(r.value.entries)
    ensures r.Some? ==> FirstIndex(all, KeyInPeriod(head, keyOf, k, p)).Some? &&
                        r.value.head == head(all[FirstIndex(all, KeyInPeriod(head, keyOf, k, p)).value])
  {
    var keep := KeyInPeriod(head, keyOf, k, p);
    var matching := Filter(all, keep);
    FilterEmpty(all, keep);
    if |matching| == 0 then
      None
    else
      FilterFirst(all, keep);
      Some(GroupReport(head(matching[0]), Sum(matching), |matching|, matching))
  }

  /** A per-key report is exactly the summary's group for that key, and
      absent exactly when the summary has no group for it. */
  lemma KeyReportIsSummaryGroup<H>(all: seq<Entry>, head: Entry -> H, keyOf: H -> string, k: string, p: ReportPeriod)
    ensures var groups := GroupBy(PeriodEntries(all, p), head, keyOf);
      KeyReport(all, head, keyOf, k, p) ==
        match GroupIndex(groups, keyOf, k)
        case None => None
        case Some(i) => Some(groups[i])
  {
    var filtered := PeriodEntries(all, p);
    var groups := GroupBy(filtered, head, keyOf);
    GroupByIsGrouping(filtered, head, keyOf);
    FilterFilter(all, InPeriodTest(p), HasKey(head, keyOf, k), KeyInPeriod(head, keyOf, k, p));
    match GroupIndex(groups, keyOf, k)
    case None =>
      var ks := EntryKeys(filtered, head, keyOf);
      assert k !in Dedup(ks) by {
        assert forall i :: 0 <= i < |groups| ==> GroupKeys(groups, keyOf)[i] != k;
      }
      forall j | 0 <= j < |filtered| ensures keyOf(head(filtered[j])) != k {
        assert ks[j] in Dedup(ks);
      }
      FilterEmpty(filtered, HasKey(head, keyOf, k));
    case Some(i) =>
      assert GroupOf(groups[i], filtered, head, keyOf);
  }

  /** `generateCategoryReport`. */
  function GenerateCategoryReport(all: seq<Entry>, categoryId: string, period: ReportPeriod)
    : (r: Option<CategoryReport>)
    ensures r.None? <==>
      forall j :: 0 <= j < |all| ==> !(all[j].category.id == categoryId && InPeriod(all[j], period))
    ensures r.Some? ==> forall x :: x in r.value.entries <==>
      x in all && x.category.id == categoryId && InPeriod(x, period)
    ensures r.Some? ==> r.value.entries == Filter(all, KeyInPeriod(CategoryOf, CategoryKey, categoryId, period))
    ensures r.Some? ==> r.value.count == |r.value.entries| && r.value.totalAmount == Sum(r.value.entries)
    ensures r.Some? ==> exists j :: 0 <= j < |all| && all[j].category.id == categoryId && InPeriod(all[j], period) &&
                                    r.value.head == all[j].category &&
                                    (forall i :: 0 <= i < j ==> !(all[i].category.id == categoryId && InPeriod(all[i], period)))
  {
    KeyReport(all, CategoryOf, CategoryKey, categoryId, period)
  }

  /** `generateRequesterReport`. */
  function GenerateRequesterReport(all: seq<Entry>, requesterId: string, period: ReportPeriod)
    : (r: Option<RequesterReport>)
    ensures r.None? <==>
      forall j :: 0 <= j < |all| ==> !(all[j].requester.id == requesterId && InPeriod(all[j], period))
    ensures r.Some? ==> forall x :: x in r.value.entries <==>
      x in all && x.requester.id == requesterId && InPeriod(x, period)
    ensures r.Some? ==> r.value.entries == Filter(all, KeyInPeriod(RequesterOf, RequesterKey, requesterId, period))
    ensures r.Some? ==> r.value.count == |r.value.entries| && r.value.totalAmount == Sum(r.value.entries)
    ensures r.Some? ==> exists j :: 0 <= j < |all| && all[j].requester.id == requesterId && InPeriod(all[j], period) &&
                                    r.value.head == all[j].requester &&
                                    (forall i :: 0 <= i < j ==> !(all[i].requester.id == requesterId && InPeriod(all[i], period)))
  {
    KeyReport(all, RequesterOf, RequesterKey, requesterId, period)
  }

  /** The category report agrees with the summary's category group. */
  lemma CategoryReportIsSummaryGroup(all: seq<Entry>, categoryId: string, period: ReportPeriod)
    ensures var groups := GroupBy(PeriodEntries(all, period), CategoryOf, CategoryKey);
      GenerateCategoryReport(all, categoryId, period) ==
        match GroupIndex(groups, CategoryKey, categoryId)
        case None => None
        case Some(i) => Some(groups[i])
  {
    KeyReportIsSummaryGroup(all, CategoryOf, CategoryKey, categoryId, period);
  }

  /** The requester report agrees with the summary's requester group. */
  lemma RequesterReportIsSummaryGroup(all: seq<Entry>, requesterId: string, period: ReportPeriod)
    ensures var groups := GroupBy(PeriodEntries(all, period), RequesterOf, RequesterKey);
      GenerateRequesterReport(all, requesterId, period) ==
        match GroupIndex(groups, RequesterKey, requesterId)
        case None => None
        case Some(i) => Some(groups[i])
  {
    KeyReportIsSummaryGroup(all, RequesterOf, RequesterKey, requesterId, period);
  }
}
