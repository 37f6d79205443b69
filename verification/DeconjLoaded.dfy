/** What a loaded rule file deconjugates, told by its rule objects (src/deconj/deconjugator.cpp). */
module DeconjLoaded {
  import opened Basics
  import opened DeconjRules
  import opened DeconjSpec
  import opened DeconjExact

  ghost predicate AllWellFormed(raws: seq<RawRule>) {
    forall raw :: raw in raws ==> WellFormed(raw)
  }

  /** The entry a list that has one entry, or one for every ending, gives for ending i. */
  function OneOrEach(list: seq<string>, i: nat): string
    requires |list| == 1 || i < |list|
  {
    if |list| == 1 then list[0] else list[i]
  }

  /** A virtual rule that takes ending i of a rule object off and puts its dictionary ending on. */
  ghost predicate ComesFrom(rule: Rule, raw: RawRule, i: nat) {
    && WellFormed(raw) && i < |raw.conEnds|
    && rule.kind == raw.kind && rule.detail == raw.detail
    && rule.conEnd == raw.conEnds[i] && rule.decEnd == raw.decEnds[i]
    && rule.conTag == OneOrEach(raw.conTags, i) && rule.decTag == OneOrEach(raw.decTags, i)
  }

  /** How many endings the first n rule objects list. */
  ghost function EndingsBefore(raws: seq<RawRule>, n: nat): nat
    requires n <= |raws|
  {
    if n == 0 then 0 else EndingsBefore(raws, n - 1) + |raws[n - 1].conEnds|
  }

  lemma {:induction false} EndingsOfPrefix(raws: seq<RawRule>, n: nat, m: nat)
    requires n <= m <= |raws|
    ensures EndingsBefore(raws[..m], n) == EndingsBefore(raws, n) <= EndingsBefore(raws, m)
    decreases m, n
  {
    if n > 0 {
      EndingsOfPrefix(raws, n - 1, m);
      assert raws[..m][n - 1] == raws[n - 1];
    }
    if n < m {
      EndingsOfPrefix(raws, n, m - 1);
    }
  }

  lemma {:induction false} ExpandedObject(raw: RawRule, n: nat, i: nat)
    requires WellFormed(raw) && i < n <= |raw.conEnds|
    ensures |ExpandPrefix(raw, n)| == n && ComesFrom(ExpandPrefix(raw, n)[i], raw, i)
  {
    if i < n - 1 {
      ExpandedObject(raw, n - 1, i);
    } else {
      ExpandedLength(raw, n - 1);
    }
  }

  lemma {:induction false} ExpandedLength(raw: RawRule, n: nat)
    requires WellFormed(raw) && n <= |raw.conEnds|
    ensures |ExpandPrefix(raw, n)| == n
  {
    if n > 0 {
      ExpandedLength(raw, n - 1);
    }
  }

  /** Ending i of rule object n becomes the virtual rule behind those of all earlier endings. */
  lemma {:induction false} ExpandedPlace(raws: seq<RawRule>, n: nat, i: nat)
    requires AllWellFormed(raws) && n < |raws| && i < |raws[n].conEnds|
    ensures |ExpandAll(raws)| == EndingsBefore(raws, |raws|)
    ensures EndingsBefore(raws, n) + i < |ExpandAll(raws)|
    ensures ComesFrom(ExpandAll(raws)[EndingsBefore(raws, n) + i], raws[n], i)
    decreases |raws|
  {
    hide ComesFrom, WellFormed;
    var front, last := raws[..|raws| - 1], raws[|raws| - 1];
    assert last in raws;
    ExpandedCount(front);
    ExpandedLength(last, |last.conEnds|);
    EndingsOfPrefix(raws, |raws| - 1, |raws| - 1);
    if n < |raws| - 1 {
      assert front[n] == raws[n];
      ExpandedPlace(front, n, i);
      EndingsOfPrefix(raws, n, |raws| - 1);
    } else {
      ExpandedObject(last, |last.conEnds|, i);
    }
  }

  lemma {:induction false} ExpandedCount(raws: seq<RawRule>)
    requires AllWellFormed(raws)
    ensures |ExpandAll(raws)| == EndingsBefore(raws, |raws|)
    decreases |raws|
  {
    if raws != [] {
      var last := raws[|raws| - 1];
      assert last in raws;
      ExpandedCount(raws[..|raws| - 1]);
      ExpandedLength(last, |last.conEnds|);
      EndingsOfPrefix(raws, |raws| - 1, |raws| - 1);
    }
  }

  /** Every virtual rule comes from one place of the file. */
  lemma {:induction false} ExpandedOrigin(raws: seq<RawRule>, k: nat) returns (n: nat, i: nat)
    requires AllWellFormed(raws) && k < |ExpandAll(raws)|
    ensures n < |raws| && ComesFrom(ExpandAll(raws)[k], raws[n], i) && k == EndingsBefore(raws, n) + i
    decreases |raws|
  {
    hide WellFormed, ComesFrom;
    var m := |raws| - 1;
    var front, last := raws[..m], raws[m];
    assert last in raws;
    ExpandedCount(front);
    EndingsOfPrefix(raws, m, m);
    ExpandedLength(last, |last.conEnds|);
    if k < |ExpandAll(front)| {
      n, i := ExpandedOrigin(front, k);
      EndingsOfPrefix(raws, n, m);
    } else {
      n, i := m, k - |ExpandAll(front)|;
      ExpandedObject(last, |last.conEnds|, i);
    }
  }

  // ---------------------------------------------------------------- deconjugating with it

  /** Ending i of a plain rule object, taken off any text that has it, gives a form of the first generation
      with the dictionary ending, the decTag and the label. */
  lemma LoadedRuleDeconjugates(raws: seq<RawRule>, n: nat, i: nat, stem: Text) returns (g: Item)
    requires AllWellFormed(raws) && n < |raws| && WellFormed(raws[n]) && i < |raws[n].conEnds|
    requires raws[n].kind == Standard && stem + raws[n].decEnds[i] != []
    ensures var rules, raw := ExpandAll(raws), raws[n];
      && g in Generation(rules, stem + raw.conEnds[i], 1)
      && g.text == stem + raw.decEnds[i] && g.tag == OneOrEach(raw.decTags, i)
      && Labels(rules, g.trail) == [raw.detail]
  {
    hide Generation, ExpandAll;
    var rules, raw := ExpandAll(raws), raws[n];
    ExpandedPlace(raws, n, i);
    var trail, texts := [EndingsBefore(raws, n) + i], [stem + raw.conEnds[i], stem + raw.decEnds[i]];
    assert texts[0] == stem + rules[trail[0]].conEnd && texts[1] == stem + rules[trail[0]].decEnd;
    assert trail[..0] == [] && Steps(rules, []) == 0;
    assert IsStep(rules, trail, 0, texts[0], texts[1]);
    g := GenerationCovers(rules, texts[0], trail, texts);
    assert Labels(rules, trail) == [raw.detail];
  }

  /** A second one takes its ending off what the first one gave, when its conTag is the first one's decTag. */
  lemma LoadedRulesChain(raws: seq<RawRule>, n: nat, i: nat, stem: Text, m: nat, j: nat, rest: Text) returns (g: Item)
    requires AllWellFormed(raws) && n < |raws| && WellFormed(raws[n]) && i < |raws[n].conEnds|
    requires m < |raws| && WellFormed(raws[m]) && j < |raws[m].conEnds|
    requires raws[n].kind == Standard && raws[m].kind == Standard
    requires stem + raws[n].decEnds[i] == rest + raws[m].conEnds[j] != [] && rest + raws[m].decEnds[j] != []
    requires OneOrEach(raws[m].conTags, j) == OneOrEach(raws[n].decTags, i)
    ensures var rules := ExpandAll(raws);
      && g in Generation(rules, stem + raws[n].conEnds[i], 2)
      && g.text == rest + raws[m].decEnds[j] && g.tag == OneOrEach(raws[m].decTags, j)
      && Labels(rules, g.trail) == [raws[n].detail, raws[m].detail]
  {
    hide Generation, ExpandAll;
    var rules := ExpandAll(raws);
    ExpandedPlace(raws, n, i);
    ExpandedPlace(raws, m, j);
    var first, second := EndingsBefore(raws, n) + i, EndingsBefore(raws, m) + j;
    var trail := [first, second];
    var texts := [stem + raws[n].conEnds[i], stem + raws[n].decEnds[i], rest + raws[m].decEnds[j]];
    assert IsStep(rules, trail, 0, texts[0], texts[1]);
    assert trail[..1] == [first];
    assert IsStep(rules, trail, 1, texts[1], texts[2]);
    g := GenerationCovers(rules, texts[0], trail, texts);
    assert Labels(rules, trail) == [raws[n].detail, raws[m].detail];
  }

  /** Nothing else is in the first generation. */
  lemma FirstGenerationOrigin(raws: seq<RawRule>, surface: Text, g: Item) returns (n: nat, i: nat, stem: Text)
    requires AllWellFormed(raws) && g in Generation(ExpandAll(raws), surface, 1)
    ensures n < |raws| && i < |raws[n].conEnds| == |raws[n].decEnds|
    ensures surface == stem + raws[n].conEnds[i] && g.text == stem + raws[n].decEnds[i] != []
    ensures raws[n].kind != NeverFinal && (raws[n].kind == Rewrite ==> stem == [])
    ensures |raws[n].decTags| == 1 || i < |raws[n].decTags|
    ensures g.tag == OneOrEach(raws[n].decTags, i) && Labels(ExpandAll(raws), g.trail) == [raws[n].detail]
  {
    hide Generation, ExpandAll;
    var rules := ExpandAll(raws);
    GenerationArePaths(rules, surface, 1);
    GenerationTrails(rules, surface, 1);
    var texts: seq<Text> :| IsDerivation(rules, surface, g.trail, texts) && Last(texts) == g.text;
    assert IsStep(rules, g.trail, 0, texts[0], texts[1]);
    n, i := ExpandedOrigin(raws, g.trail[0]);
    var rule := rules[g.trail[0]];
    stem :| texts[0] == stem + rule.conEnd && texts[1] == stem + rule.decEnd && (rule.kind == Rewrite ==> stem == []);
  }

  // ---------------------------------------------------------------- the untouched prefix

  lemma {:induction false} LongestIsAttained(rules: seq<Rule>)
    requires rules != []
    ensures exists k :: 0 <= k < |rules| && |rules[k].conEnd| == LongestOf(rules)
  {
    var n := |rules| - 1;
    if |rules[n].conEnd| >= LongestOf(rules[..n]) {
      assert LongestOf(rules) == |rules[n].conEnd|;
    } else if n > 0 {
      LongestIsAttained(rules[..n]);
      var k :| 0 <= k < n && |rules[..n][k].conEnd| == LongestOf(rules[..n]);
      assert rules[k] == rules[..n][k];
    }
  }

  lemma {:induction false} ShortestIsLeast(items: seq<Item>, start: nat)
    ensures ShortestOf(items, start) <= start && forall g :: g in items ==> ShortestOf(items, start) <= |g.text|
    ensures ShortestOf(items, start) == start || exists g :: g in items && |g.text| == ShortestOf(items, start)
  {
    if items != [] {
      ShortestIsLeast(Front(items), start);
      assert Last(items) in items;
    }
  }

  /** What is reported as untouched is exactly what the longest ending of any rule leaves of the shortest
      visited form. */
  lemma UntouchedExactly(rules: seq<Rule>, surface: Text, n: nat, count: nat)
    requires rules != [] && n > 0
    ensures count <= Untouched(rules, surface, n) <==>
      (|| count == 0
       || forall g, k :: g in Visited(rules, surface, n) && 0 <= k < |rules| ==> count + |rules[k].conEnd| <= |g.text|)
  {
    hide Generation;
    var visited := Visited(rules, surface, n);
    ShortestIsLeast(visited, |surface|);
    LongestIsAttained(rules);
    SeedIsVisited(rules, surface, n);
    forall k: nat | k < |rules|
      ensures |rules[k].conEnd| <= LongestOf(rules)
    {
      LongestOfBounds(rules, k);
    }
    var shortest, longest := ShortestOf(visited, |surface|), LongestOf(rules);
    assert exists g :: g in visited && |g.text| == shortest;
  }

  lemma SeedIsVisited(rules: seq<Rule>, surface: Text, n: nat)
    requires n > 0
    ensures Seed(surface) in Visited(rules, surface, n)
  {
    VisitedHolds(rules, surface, Seed(surface), 0, n);
  }
}
