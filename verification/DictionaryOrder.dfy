/** The priority order of the dictionary list: renumbering, moving and the automatic sort
    (src/dict/dictionarymanager.cpp). */
module DictionaryOrder {
  import opened Basics
  import opened StoreFiles
  import opened ManagerState
  import opened StableSorting

  predicate ByPriority(a: Entry, b: Entry) {
    a.priority < b.priority
  }

  function Number(entries: seq<Entry>): seq<Entry> {
    seq(|entries|, i requires 0 <= i < |entries| => entries[i].(priority := i + 1))
  }

  /** renumber(): a stable sort by priority, then 1 to n. */
  function Renumbered(entries: seq<Entry>): seq<Entry> {
    Number(Sort(ByPriority, entries))
  }

  /** Every entry of after is an entry of before, up to its priority, name and enabled state. */
  ghost predicate Relabels(before: seq<Entry>, after: seq<Entry>) {
    forall e :: e in after ==>
      exists b :: b in before && b.(priority := e.priority, name := e.name, enabled := e.enabled) == e
  }

  lemma PriorityIsWeakOrder(entries: seq<Entry>)
    ensures WeakOrderOn(ByPriority, entries)
  {
  }

  lemma {:induction false} InsertDistinct(s: seq<Entry>, x: Entry)
    requires DistinctIds(s) && forall e :: e in s ==> e.id != x.id
    ensures DistinctIds(Insert(ByPriority, s, x))
    ensures forall e :: e in Insert(ByPriority, s, x) <==> e in s || e == x
    decreases |s|
  {
    if s != [] && ByPriority(x, s[|s| - 1]) {
      var front, last := s[..|s| - 1], s[|s| - 1];
      InsertDistinct(front, x);
      assert s == front + [last];
      forall e | e in front
        ensures e.id != last.id
      {
        var k :| 0 <= k < |front| && front[k] == e;
      }
      assert last in s;
    }
  }

  lemma {:induction false} SortDistinct(s: seq<Entry>)
    requires DistinctIds(s)
    ensures DistinctIds(Sort(ByPriority, s))
    ensures forall e :: e in Sort(ByPriority, s) <==> e in s
    ensures |Sort(ByPriority, s)| == |s|
  {
    if s != [] {
      SortDistinct(s[..|s| - 1]);
      InsertDistinct(Sort(ByPriority, s[..|s| - 1]), s[|s| - 1]);
      InsertOne(Sort(ByPriority, s[..|s| - 1]), s[|s| - 1]);
      assert s == s[..|s| - 1] + [s[|s| - 1]];
    }
  }

  lemma {:induction false} InsertOne(s: seq<Entry>, x: Entry)
    ensures |Insert(ByPriority, s, x)| == |s| + 1
  {
    if s != [] && ByPriority(x, s[|s| - 1]) {
      InsertOne(s[..|s| - 1], x);
    }
  }

  lemma NumberRelabels(before: seq<Entry>, entries: seq<Entry>)
    requires Relabels(before, entries)
    ensures Relabels(before, Number(entries)) && Numbered(Number(entries)) && |Number(entries)| == |entries|
    ensures DistinctIds(entries) ==> DistinctIds(Number(entries))
  {
    forall e | e in Number(entries)
      ensures exists b :: b in before && b.(priority := e.priority, name := e.name, enabled := e.enabled) == e
    {
      var i :| 0 <= i < |entries| && Number(entries)[i] == e;
      var f := entries[i];
      var b :| b in before && b.(priority := f.priority, name := f.name, enabled := f.enabled) == f;
    }
  }

  /** Renumbering keeps the entries and numbers them 1 to n. */
  lemma RenumberedList(entries: seq<Entry>)
    requires DistinctIds(entries)
    ensures Numbered(Renumbered(entries)) && DistinctIds(Renumbered(entries)) && |Renumbered(entries)| == |entries|
    ensures Relabels(entries, Renumbered(entries))
  {
    SortDistinct(entries);
    NumberRelabels(entries, Sort(ByPriority, entries));
  }

  /** Renumbering changes priorities only, and loses and adds no entry. */
  lemma RenumberedOnly(entries: seq<Entry>)
    requires DistinctIds(entries)
    ensures forall e :: e in Renumbered(entries) ==> exists b :: b in entries && b.(priority := e.priority) == e
    ensures forall b :: b in entries ==> exists e :: e in Renumbered(entries) && e.(priority := b.priority) == b
  {
    SortDistinct(entries);
    var sorted := Sort(ByPriority, entries);
    forall e | e in Renumbered(entries)
      ensures exists b :: b in entries && b.(priority := e.priority) == e
    {
      var i :| 0 <= i < |sorted| && Number(sorted)[i] == e;
      assert sorted[i] in entries && sorted[i].(priority := e.priority) == e;
    }
    forall b | b in entries
      ensures exists e :: e in Renumbered(entries) && e.(priority := b.priority) == b
    {
      var e := RenumberedEntry(entries, b);
    }
  }

  lemma RenumberedEntry(entries: seq<Entry>, b: Entry) returns (e: Entry)
    requires DistinctIds(entries) && b in entries
    ensures e in Renumbered(entries) && e.(priority := b.priority) == b
  {
    hide DistinctIds;
    SortDistinct(entries);
    var sorted := Sort(ByPriority, entries);
    var i :| 0 <= i < |sorted| && sorted[i] == b;
    e := Number(sorted)[i];
  }

  /** Sorting what is sorted changes nothing. */
  lemma {:induction false} SortOfSorted(s: seq<Entry>)
    requires Sorted(ByPriority, s)
    ensures Sort(ByPriority, s) == s
  {
    if s != [] {
      SortOfSorted(s[..|s| - 1]);
      assert s == s[..|s| - 1] + [s[|s| - 1]];
    }
  }

  /** Renumbering sorts by priority, with ties in their order, and then numbers. */
  lemma RenumberedIsStable(entries: seq<Entry>) returns (order: seq<Entry>)
    ensures IsStableSort(ByPriority, entries, order) && Renumbered(entries) == Number(order)
    ensures forall i, j :: 0 <= i < j < |order| ==> order[i].priority <= order[j].priority
  {
    PriorityIsWeakOrder(entries);
    SortIsStable(ByPriority, entries);
    order := Sort(ByPriority, entries);
  }

  /** Where an entry of a priority goes in a list numbered from 1: behind the entry of that number. */
  function PlaceOf(priority: int, count: nat): (place: nat)
    ensures place <= count
  {
    if priority <= 0 then 0 else if priority > count then count else priority
  }

  lemma {:induction false} InsertedAt(s: seq<Entry>, x: Entry)
    requires Numbered(s)
    ensures var k := PlaceOf(x.priority, |s|); Insert(ByPriority, s, x) == s[..k] + [x] + s[k..]
    decreases |s|
  {
    if s != [] {
      var front, k := s[..|s| - 1], PlaceOf(x.priority, |s|);
      if ByPriority(x, s[|s| - 1]) {
        InsertedAt(front, x);
        assert s[k..] == front[k..] + [s[|s| - 1]] && s[..k] == front[..k];
      } else {
        assert s[..k] == s && s[k..] == [];
      }
    }
  }

  lemma NumberedIsSorted(s: seq<Entry>)
    requires Numbered(s)
    ensures Sort(ByPriority, s) == s
  {
    SortOfSorted(s);
  }

  /** An entry added to a numbered list stands behind the entry of its priority; the others keep their order. */
  lemma AddedAt(entries: seq<Entry>, x: Entry)
    requires Numbered(entries)
    ensures var k := PlaceOf(x.priority, |entries|);
      Renumbered(entries + [x]) == Number(entries[..k] + [x] + entries[k..])
  {
    NumberedIsSorted(entries);
    InsertedAt(entries, x);
    var all := entries + [x];
    assert all[..|all| - 1] == entries && all[|all| - 1] == x;
  }

  // ---------------------------------------------------------------- the automatic sort

  /** The sort rules: the index of the first rule a name matches, count when none does. */
  datatype SortRules = SortRules(count: nat, first: string -> nat)

  function Rank(rules: SortRules, e: Entry): Entry {
    var rule := rules.first(e.name);
    e.(priority := rule, enabled := e.enabled || rule < rules.count)
  }

  function Ranked(rules: SortRules, entries: seq<Entry>): seq<Entry> {
    seq(|entries|, i requires 0 <= i < |entries| => Rank(rules, entries[i]))
  }

  function RuleSorted(rules: SortRules, entries: seq<Entry>): seq<Entry> {
    Renumbered(Ranked(rules, entries))
  }

  /** Whether the sort moved an entry or enabled one. */
  predicate ListChanged(before: seq<Entry>, after: seq<Entry>)
    requires |before| == |after|
  {
    exists i :: 0 <= i < |before| && (before[i].id != after[i].id || before[i].enabled != after[i].enabled)
  }

  lemma RankedList(rules: SortRules, entries: seq<Entry>)
    requires DistinctIds(entries)
    ensures DistinctIds(Ranked(rules, entries)) && Relabels(entries, Ranked(rules, entries))
  {
    forall e | e in Ranked(rules, entries)
      ensures exists b :: b in entries && b.(priority := e.priority, name := e.name, enabled := e.enabled) == e
    {
      var i :| 0 <= i < |entries| && Ranked(rules, entries)[i] == e;
      assert entries[i] in entries;
    }
  }

  lemma RelabelsTwice(a: seq<Entry>, b: seq<Entry>, c: seq<Entry>)
    requires Relabels(a, b) && Relabels(b, c)
    ensures Relabels(a, c)
  {
    forall e | e in c
      ensures exists x :: x in a && x.(priority := e.priority, name := e.name, enabled := e.enabled) == e
    {
      var y :| y in b && y.(priority := e.priority, name := e.name, enabled := e.enabled) == e;
      var x :| x in a && x.(priority := y.priority, name := y.name, enabled := y.enabled) == y;
    }
  }

  lemma RuleSortedList(rules: SortRules, entries: seq<Entry>)
    requires DistinctIds(entries)
    ensures Numbered(RuleSorted(rules, entries)) && DistinctIds(RuleSorted(rules, entries))
    ensures |RuleSorted(rules, entries)| == |entries| && Relabels(entries, RuleSorted(rules, entries))
  {
    RankedList(rules, entries);
    RenumberedList(Ranked(rules, entries));
    RelabelsTwice(entries, Ranked(rules, entries), RuleSorted(rules, entries));
  }

  /** The automatic sort orders by the first matching rule and is stable: up to the numbering, its
      result is the one stable sort of the ranked list. */
  lemma RuleSortIsStable(rules: SortRules, entries: seq<Entry>) returns (order: seq<Entry>)
    requires DistinctIds(entries)
    ensures IsStableSort(ByPriority, Ranked(rules, entries), order) && RuleSorted(rules, entries) == Number(order)
    ensures forall i, j :: 0 <= i < j < |order| ==> rules.first(order[i].name) <= rules.first(order[j].name)
  {
    var ranked := Ranked(rules, entries);
    PriorityIsWeakOrder(ranked);
    SortIsStable(ByPriority, ranked);
    order := Sort(ByPriority, ranked);
    SameContents(ranked, order);
    forall i | 0 <= i < |order|
      ensures order[i].priority == rules.first(order[i].name)
    {
      assert order[i] in ranked;
    }
  }

  /** What the automatic sort may make of an entry: another priority, and enabled when a rule matches it. */
  predicate SortedAs(rules: SortRules, before: Entry, after: Entry) {
    && after.(priority := before.priority, enabled := before.enabled) == before
    && (after.enabled <==> before.enabled || rules.first(before.name) < rules.count)
  }

  lemma RankedAs(rules: SortRules, before: Entry, after: Entry)
    requires after.(priority := Rank(rules, before).priority) == Rank(rules, before)
    ensures SortedAs(rules, before, after)
  {
  }

  /** The automatic sort keeps every entry, up to that. */
  lemma RuleSortEnables(rules: SortRules, entries: seq<Entry>, b: Entry) returns (e: Entry)
    requires DistinctIds(entries) && b in entries
    ensures e in RuleSorted(rules, entries) && SortedAs(rules, b, e)
  {
    hide Renumbered, SortedAs, Rank, DistinctIds, Relabels;
    var ranked := Ranked(rules, entries);
    RankedList(rules, entries);
    var i :| 0 <= i < |entries| && entries[i] == b;
    assert ranked[i] in ranked;
    e := RenumberedEntry(ranked, ranked[i]);
    RankedAs(rules, b, e);
  }

  /** The sort of a list it has sorted is the list itself. */
  lemma RuleSortTwice(rules: SortRules, entries: seq<Entry>)
    requires DistinctIds(entries)
    ensures RuleSorted(rules, RuleSorted(rules, entries)) == RuleSorted(rules, entries)
  {
    var ranked := Ranked(rules, entries);
    var order := RuleSortIsStable(rules, entries);
    SameContents(ranked, order);
    var again := Ranked(rules, Number(order));
    forall i | 0 <= i < |order|
      ensures again[i] == order[i]
    {
      assert order[i] in ranked;
      var k :| 0 <= k < |ranked| && ranked[k] == order[i];
      assert order[i] == Rank(rules, entries[k]);
    }
    assert again == order;
    SortOfSorted(order);
  }

  /** When nothing moved and nothing was enabled, a numbered list comes back unchanged. */
  lemma UnchangedSort(rules: SortRules, entries: seq<Entry>)
    requires DistinctIds(entries) && Numbered(entries)
    requires |RuleSorted(rules, entries)| == |entries| && !ListChanged(entries, RuleSorted(rules, entries))
    ensures RuleSorted(rules, entries) == entries
  {
    RuleSortedList(rules, entries);
    var after := RuleSorted(rules, entries);
    forall i | 0 <= i < |entries|
      ensures after[i] == entries[i]
    {
      RuleSortedNames(rules, entries, i);
    }
  }

  lemma RuleSortedNames(rules: SortRules, entries: seq<Entry>, i: nat)
    requires DistinctIds(entries) && |RuleSorted(rules, entries)| == |entries| && i < |entries|
    requires RuleSorted(rules, entries)[i].id == entries[i].id
    ensures RuleSorted(rules, entries)[i] ==
      Rank(rules, entries[i]).(priority := i + 1)
  {
    var ranked := Ranked(rules, entries);
    RankedList(rules, entries);
    SortDistinct(ranked);
    var x := Sort(ByPriority, ranked)[i];
    assert x in ranked;
    var k :| 0 <= k < |ranked| && ranked[k] == x;
    assert ranked[k].id == entries[k].id;
    assert k == i;
  }

  // ---------------------------------------------------------------- moving one entry

  /** The list with the entry at from taken out and put back at index to. */
  function MovedList(entries: seq<Entry>, from: nat, to: nat): seq<Entry>
    requires from < |entries| && to < |entries|
  {
    var rest := entries[..from] + entries[from + 1..];
    Number(rest[..to] + [entries[from]] + rest[to..])
  }

  /** Where the entry at index a of the moved list was before. */
  function OldIndex(from: nat, to: nat, a: nat): nat {
    if a == to then from
    else
      var r := if a < to then a else a - 1;
      if r < from then r else r + 1
  }

  lemma OldIndexAscends(from: nat, to: nat, count: nat)
    requires from < count && to < count
    ensures OldIndex(from, to, to) == from && forall a :: 0 <= a < count ==> OldIndex(from, to, a) < count
    ensures forall a, b :: 0 <= a < b < count && a != to && b != to ==> OldIndex(from, to, a) < OldIndex(from, to, b)
  {
  }

  /** Moving puts the moved entry at its target, leaves the others in their order and numbers all. */
  lemma MovedListKeeps(entries: seq<Entry>, from: nat, to: nat)
    requires from < |entries| && to < |entries|
    ensures |MovedList(entries, from, to)| == |entries|
    ensures forall a :: 0 <= a < |entries| ==>
      OldIndex(from, to, a) < |entries|
      && MovedList(entries, from, to)[a] == entries[OldIndex(from, to, a)].(priority := a + 1)
    ensures OldIndex(from, to, to) == from
    ensures forall a, b :: 0 <= a < b < |entries| && a != to && b != to ==>
      OldIndex(from, to, a) < OldIndex(from, to, b)
  {
    OldIndexAscends(from, to, |entries|);
    var rest := entries[..from] + entries[from + 1..];
    var order := rest[..to] + [entries[from]] + rest[to..];
    forall i | 0 <= i < |rest|
      ensures rest[i] == entries[if i < from then i else i + 1]
    {
    }
    forall i | 0 <= i < |order|
      ensures order[i] == entries[OldIndex(from, to, i)]
    {
      assert order[i] == if i == to then entries[from] else rest[if i < to then i else i - 1];
    }
  }

  lemma OldIndexDiffers(from: nat, to: nat, a: nat, b: nat)
    requires a != b
    ensures OldIndex(from, to, a) != OldIndex(from, to, b)
  {
  }

  lemma MovedListValid(entries: seq<Entry>, from: nat, to: nat)
    requires DistinctIds(entries) && from < |entries| && to < |entries|
    ensures var after := MovedList(entries, from, to);
      Numbered(after) && DistinctIds(after) && Relabels(entries, after)
  {
    hide MovedList, OldIndex;
    MovedListKeeps(entries, from, to);
    var after := MovedList(entries, from, to);
    forall e | e in after
      ensures exists b :: b in entries && b.(priority := e.priority, name := e.name, enabled := e.enabled) == e
    {
      var a :| 0 <= a < |after| && after[a] == e;
      assert entries[OldIndex(from, to, a)] in entries;
    }
    forall a, b | 0 <= a < b < |after|
      ensures after[a].id != after[b].id
    {
      OldIndexDiffers(from, to, a, b);
    }
  }
}
