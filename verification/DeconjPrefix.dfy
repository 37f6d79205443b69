/** The untouched prefix is a simulation: within the reported prefix the search does not depend on the
    text at all. */
module DeconjPrefix {
  import opened Basics
  import opened DeconjRules
  import opened DeconjSpec

  /** The form with its first p code units replaced by those of another surface text. */
  function Regraft(item: Item, p: nat, other: Text): Item
    requires p <= |other|
  {
    if p <= |item.text| then item.(text := other[..p] + item.text[p..]) else item
  }

  ghost function RegraftAll(items: seq<Item>, p: nat, other: Text): seq<Item>
    requires p <= |other|
  {
    seq(|items|, i requires 0 <= i < |items| => Regraft(items[i], p, other))
  }

  /** The form still carries the surface text's first p code units. */
  predicate Aligned(surface: Text, p: nat, item: Item)
    requires p <= |surface|
  {
    p <= |item.text| && item.text[..p] == surface[..p]
  }

  ghost predicate AllAligned(surface: Text, p: nat, items: seq<Item>)
    requires p <= |surface|
  {
    forall i :: 0 <= i < |items| ==> Aligned(surface, p, items[i])
  }

  /** No form is short enough for a rule to read into the first p code units. */
  ghost predicate AllLong(rules: seq<Rule>, p: nat, items: seq<Item>) {
    forall i :: 0 <= i < |items| ==> p + LongestOf(rules) <= |items[i].text|
  }

  // ---------------------------------------------------------------- one form

  lemma RegraftSameText(surface: Text, other: Text, p: nat, x: Item, y: Item)
    requires p <= |surface| && p <= |other| && Aligned(surface, p, x) && Aligned(surface, p, y)
    ensures Regraft(x, p, other).text == Regraft(y, p, other).text <==> x.text == y.text
  {
    if Regraft(x, p, other).text == Regraft(y, p, other).text {
      assert x.text[p..] == Regraft(x, p, other).text[p..];
      assert y.text[p..] == Regraft(y, p, other).text[p..];
      assert x.text == x.text[..p] + x.text[p..];
      assert y.text == y.text[..p] + y.text[p..];
    }
  }

  /** A rule that cannot reach the prefix fires on both forms or on neither, with the same outcome. */
  lemma RegraftFires(rules: seq<Rule>, surface: Text, other: Text, p: nat, item: Item, k: nat)
    requires 0 < p <= |surface| && p <= |other| && Aligned(surface, p, item)
    requires p + LongestOf(rules) <= |item.text|
    ensures FiresOn(rules, item, k) <==> FiresOn(rules, Regraft(item, p, other), k)
    ensures FiresOn(rules, item, k) ==>
      Aligned(surface, p, Child(rules, item, k))
      && Child(rules, Regraft(item, p, other), k) == Regraft(Child(rules, item, k), p, other)
  {
    if k < |rules| {
      LongestOfBounds(rules, k);
      var x, y, conEnd := item.text, Regraft(item, p, other).text, rules[k].conEnd;
      assert |x| == |y| && x[|x| - |conEnd|..] == y[|y| - |conEnd|..];
      if FiresOn(rules, item, k) {
        assert Stem(x, conEnd)[..p] == surface[..p];
        assert Rewritten(rules[k], x)[..p] == surface[..p];
        assert Stem(y, conEnd) == other[..p] + Stem(x, conEnd)[p..];
        assert Rewritten(rules[k], y) == other[..p] + Rewritten(rules[k], x)[p..];
      }
    }
  }

  lemma NoCharCandidates(rules: seq<Rule>, item: Item)
    requires LongestOf(rules) == 0
    ensures CharCandidates(rules, item) == []
  {
    if CharCandidates(rules, item) != [] {
      var c := Last(item.text);
      var sel := if item.trail == [] then LastChar(c) else LastCharTag(c, item.tag);
      SelectIndicesExact(rules, sel);
      var k := SelectIndices(rules, sel)[0];
      LongestOfBounds(rules, k);
      assert false;
    }
  }

  lemma RegraftCandidates(rules: seq<Rule>, surface: Text, other: Text, p: nat, item: Item)
    requires 0 < p <= |surface| && p <= |other| && Aligned(surface, p, item)
    requires p + LongestOf(rules) <= |item.text|
    ensures Candidates(rules, Regraft(item, p, other)) == Candidates(rules, item)
  {
    var twin := Regraft(item, p, other);
    if LongestOf(rules) == 0 {
      NoCharCandidates(rules, item);
      NoCharCandidates(rules, twin);
    } else {
      assert Last(twin.text) == Last(item.text);
    }
  }

  lemma {:induction false} RegraftSuccessors(rules: seq<Rule>, surface: Text, other: Text, p: nat, item: Item,
                                             order: seq<nat>)
    requires 0 < p <= |surface| && p <= |other| && Aligned(surface, p, item)
    requires p + LongestOf(rules) <= |item.text|
    ensures AllAligned(surface, p, Successors(rules, item, order))
    ensures Successors(rules, Regraft(item, p, other), order) == RegraftAll(Successors(rules, item, order), p, other)
  {
    if order != [] {
      var k, twin := Last(order), Regraft(item, p, other);
      var prior := Successors(rules, item, Front(order));
      RegraftSuccessors(rules, surface, other, p, item, Front(order));
      RegraftFires(rules, surface, other, p, item, k);
      if FiresOn(rules, item, k) {
        RegraftRepeats(rules, surface, other, p, item, k, prior);
      }
    }
  }

  lemma RegraftRepeats(rules: seq<Rule>, surface: Text, other: Text, p: nat, item: Item, k: nat, prior: seq<Item>)
    requires 0 < p <= |surface| && p <= |other| && Aligned(surface, p, item)
    requires p + LongestOf(rules) <= |item.text|
    requires FiresOn(rules, item, k) && FiresOn(rules, Regraft(item, p, other), k)
    requires AllAligned(surface, p, prior)
    ensures Repeats(rules, RegraftAll(prior, p, other), Regraft(item, p, other), k) <==> Repeats(rules, prior, item, k)
  {
    var twin, twins := Regraft(item, p, other), RegraftAll(prior, p, other);
    RegraftFires(rules, surface, other, p, item, k);
    forall i | 0 <= i < |prior|
      ensures SameOutcome(rules, twins[i], twin, k) <==> SameOutcome(rules, prior[i], item, k)
    {
      RegraftSameText(surface, other, p, prior[i], Child(rules, item, k));
    }
    if Repeats(rules, twins, twin, k) {
      var i :| 0 <= i < |twins| && SameOutcome(rules, twins[i], twin, k);
      assert SameOutcome(rules, prior[i], item, k);
    }
    if Repeats(rules, prior, item, k) {
      var i :| 0 <= i < |prior| && SameOutcome(rules, prior[i], item, k);
      assert SameOutcome(rules, twins[i], twin, k);
    }
  }

  // ---------------------------------------------------------------- generations

  lemma {:induction false} RegraftExpand(rules: seq<Rule>, surface: Text, other: Text, p: nat, items: seq<Item>)
    requires 0 < p <= |surface| && p <= |other| && AllAligned(surface, p, items) && AllLong(rules, p, items)
    ensures AllAligned(surface, p, Expand(rules, items))
    ensures Expand(rules, RegraftAll(items, p, other)) == RegraftAll(Expand(rules, items), p, other)
  {
    hide Successors, Candidates, Steps;
    if items != [] {
      var before, last := Front(items), Last(items);
      RegraftExpand(rules, surface, other, p, before);
      RegraftCandidates(rules, surface, other, p, last);
      RegraftSuccessors(rules, surface, other, p, last, Candidates(rules, last));
      assert Front(RegraftAll(items, p, other)) == RegraftAll(before, p, other);
      RegraftConcat(Expand(rules, before), Children(rules, last), p, other);
    }
  }

  lemma RegraftConcat(left: seq<Item>, right: seq<Item>, p: nat, other: Text)
    requires p <= |other|
    ensures RegraftAll(left + right, p, other) == RegraftAll(left, p, other) + RegraftAll(right, p, other)
  {
  }

  /** Both surface texts reach the same generations, the first i of which are out of reach. */
  lemma {:induction false} RegraftVisited(rules: seq<Rule>, surface: Text, other: Text, p: nat, i: nat)
    requires 0 < p <= |surface| == |other| && surface[p..] == other[p..]
    requires AllLong(rules, p, Visited(rules, surface, i))
    ensures AllAligned(surface, p, Generation(rules, surface, i))
    ensures Generation(rules, other, i) == RegraftAll(Generation(rules, surface, i), p, other)
    ensures AllAligned(surface, p, Visited(rules, surface, i))
    ensures Visited(rules, other, i) == RegraftAll(Visited(rules, surface, i), p, other)
  {
    hide Expand;
    if i == 0 {
      assert other == other[..p] + surface[p..];
    } else {
      var earlier, newest := Visited(rules, surface, i - 1), Generation(rules, surface, i - 1);
      LongParts(rules, p, earlier, newest);
      RegraftVisited(rules, surface, other, p, i - 1);
      RegraftConcat(earlier, newest, p, other);
      RegraftExpand(rules, surface, other, p, newest);
      AlignedParts(surface, p, earlier, newest);
    }
  }

  lemma AlignedParts(surface: Text, p: nat, left: seq<Item>, right: seq<Item>)
    requires p <= |surface| && AllAligned(surface, p, left) && AllAligned(surface, p, right)
    ensures AllAligned(surface, p, left + right)
  {
  }

  lemma LongParts(rules: seq<Rule>, p: nat, left: seq<Item>, right: seq<Item>)
    requires AllLong(rules, p, left + right)
    ensures AllLong(rules, p, left) && AllLong(rules, p, right)
  {
    forall i | 0 <= i < |left|
      ensures p + LongestOf(rules) <= |left[i].text|
    {
      assert (left + right)[i] == left[i];
    }
    forall i | 0 <= i < |right|
      ensures p + LongestOf(rules) <= |right[i].text|
    {
      assert (left + right)[|left| + i] == right[i];
    }
  }

  // ---------------------------------------------------------------- the filter

  lemma RegraftSwapRemove(kept: seq<Item>, i: nat, p: nat, other: Text)
    requires i < |kept| && p <= |other|
    ensures RegraftAll(SwapRemove(kept, i), p, other) == SwapRemove(RegraftAll(kept, p, other), i)
  {
  }

  lemma {:induction false} RegraftScan(rules: seq<Rule>, surface: Text, other: Text, p: nat, kept: seq<Item>, x: Item,
                                       n: nat)
    requires p <= |surface| && p <= |other| && AllAligned(surface, p, kept) && Aligned(surface, p, x) && n <= |kept|
    ensures var scanned := Scan(rules, kept, x, n);
      AllAligned(surface, p, scanned.kept)
      && Scan(rules, RegraftAll(kept, p, other), Regraft(x, p, other), n)
         == ScanResult(RegraftAll(scanned.kept, p, other), scanned.add)
    decreases n
  {
    if n > 0 {
      var entry := kept[n - 1];
      RegraftSameText(surface, other, p, entry, x);
      if SameKey(entry, x) && Steps(rules, entry.trail) > Steps(rules, x.trail) {
        RegraftSwapRemove(kept, n - 1, p, other);
        RegraftScan(rules, surface, other, p, SwapRemove(kept, n - 1), x, n - 1);
      } else {
        RegraftScan(rules, surface, other, p, kept, x, n - 1);
      }
    }
  }

  lemma {:induction false} RegraftAccepted(rules: seq<Rule>, surface: Text, other: Text, p: nat, visited: seq<Item>)
    requires p <= |surface| && p <= |other| && AllAligned(surface, p, visited)
    ensures AllAligned(surface, p, AcceptAll(rules, visited))
    ensures AcceptAll(rules, RegraftAll(visited, p, other)) == RegraftAll(AcceptAll(rules, visited), p, other)
  {
    hide Scan;
    hide IsTerminal;
    if visited != [] {
      var kept, x := AcceptAll(rules, Front(visited)), Last(visited);
      RegraftAccepted(rules, surface, other, p, Front(visited));
      assert Front(RegraftAll(visited, p, other)) == RegraftAll(Front(visited), p, other);
      RegraftScan(rules, surface, other, p, kept, x, |kept|);
      RegraftConcat(Scan(rules, kept, x, |kept|).kept, [x], p, other);
    }
  }

  // ---------------------------------------------------------------- the claim

  lemma {:induction false} ShortestBounds(items: seq<Item>, start: nat)
    ensures ShortestOf(items, start) <= start
    ensures forall i :: 0 <= i < |items| ==> ShortestOf(items, start) <= |items[i].text|
  {
    if items != [] {
      ShortestBounds(Front(items), start);
      assert forall i :: 0 <= i < |items| - 1 ==> Front(items)[i] == items[i];
    }
  }

  lemma {:induction false} RegraftShortest(items: seq<Item>, start: nat, p: nat, other: Text)
    requires p <= |other|
    ensures ShortestOf(RegraftAll(items, p, other), start) == ShortestOf(items, start)
  {
    if items != [] {
      assert Front(RegraftAll(items, p, other)) == RegraftAll(Front(items), p, other);
      RegraftShortest(Front(items), start, p, other);
    }
  }

  lemma RegraftNothing(items: seq<Item>, other: Text)
    ensures RegraftAll(items, 0, other) == items
  {
    forall i | 0 <= i < |items|
      ensures Regraft(items[i], 0, other) == items[i]
    {
      assert [] + items[i].text[0..] == items[i].text;
    }
  }

  /** The prefix reported for one text is no longer than the text. */
  lemma UntouchedWithin(rules: seq<Rule>, surface: Text, n: nat)
    ensures Untouched(rules, surface, n) <= |surface|
    ensures Untouched(rules, surface, n) > 0 ==>
      AllLong(rules, Untouched(rules, surface, n), Visited(rules, surface, n))
  {
    ShortestBounds(Visited(rules, surface, n), |surface|);
  }

  /** For any rule set and two texts of one length that agree from the prefix reported for the first
      one on: both searches end together, answer the same forms in the same order, with the same rule
      chains and hence tags and labels, differing only in those leading code units, and report the
      same prefix. */
  lemma UntouchedPrefixIsSimulation(rules: seq<Rule>, surface: Text, other: Text, n: nat)
    requires EndsAt(rules, surface, n) && |surface| == |other|
    requires Untouched(rules, surface, n) <= |surface|
    requires surface[Untouched(rules, surface, n)..] == other[Untouched(rules, surface, n)..]
    ensures EndsAt(rules, other, n)
    ensures Answer(rules, other, n) == RegraftAll(Answer(rules, surface, n), Untouched(rules, surface, n), other)
    ensures Untouched(rules, other, n) == Untouched(rules, surface, n)
  {
    hide Generation;
    hide Visited;
    hide AcceptAll;
    hide LongestOf;
    hide ShortestOf;
    var p := Untouched(rules, surface, n);
    if p == 0 {
      assert surface == surface[0..] == other[0..] == other;
      RegraftNothing(Answer(rules, surface, n), other);
    } else {
      UntouchedWithin(rules, surface, n);
      RegraftVisited(rules, surface, other, p, n);
      RegraftAccepted(rules, surface, other, p, Visited(rules, surface, n));
      RegraftShortest(Visited(rules, surface, n), |surface|, p, other);
    }
  }

  /** Every answered form keeps the surface text's untouched prefix. */
  lemma AnswerKeepsPrefix(rules: seq<Rule>, surface: Text, n: nat)
    requires EndsAt(rules, surface, n)
    ensures Untouched(rules, surface, n) <= |surface|
    ensures AllAligned(surface, Untouched(rules, surface, n), Answer(rules, surface, n))
  {
    hide Generation;
    hide Visited;
    hide AcceptAll;
    UntouchedWithin(rules, surface, n);
    var p := Untouched(rules, surface, n);
    if p > 0 {
      RegraftVisited(rules, surface, surface, p, n);
      RegraftAccepted(rules, surface, surface, p, Visited(rules, surface, n));
    }
  }
}
