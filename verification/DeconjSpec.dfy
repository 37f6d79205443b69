/** What one deconjugation search computes, as functions of the rule list and the surface text. A
    visited form is an Item: its text, the tag it carries, and the trail of virtual-rule positions
    that produced it. The trail stands for the identity of the form's process node: no rule is
    applied twice to one form, so distinct nodes have distinct trails. */
module DeconjSpec {
  import opened Basics
  import opened DeconjRules

  datatype Item = Item(text: Text, tag: string, trail: seq<nat>)

  const MAX_PROPER_STEPS: nat := 8

  const TERMINAL_WORD_CLASSES: seq<string> := [
    "adj-i", "adj-ix", "cop", "v1", "v1-s", "v4r", "v5aru", "v5b", "v5g", "v5k", "v5k-s", "v5m",
    "v5n", "v5r", "v5r-i", "v5s", "v5t", "v5u", "v5u-s", "vk", "vs-c", "vs-i", "vs-s", "vz"]

  predicate IsTerminal(tag: string) {
    tag in TERMINAL_WORD_CLASSES
  }

  /** A step counts as proper when its label is neither empty nor parenthesised. */
  predicate IsProper(detail: string) {
    detail != "" && detail[0] != '('
  }

  /** The label of the step a trail ends on. */
  function Label(rules: seq<Rule>, k: nat): string {
    if k < |rules| then rules[k].detail else ""
  }

  /** The proper steps of a trail: the root always counts one. */
  function Steps(rules: seq<Rule>, trail: seq<nat>): nat {
    if trail == [] then 0
    else if |trail| == 1 then 1
    else Steps(rules, Front(trail)) + (if IsProper(Label(rules, Last(trail))) then 1 else 0)
  }

  // ---------------------------------------------------------------- one rule on one form

  predicate EndsWith(text: Text, suffix: Text) {
    |suffix| <= |text| && text[|text| - |suffix|..] == suffix
  }

  function Stem(text: Text, suffix: Text): Text
    requires |suffix| <= |text|
  {
    text[..|text| - |suffix|]
  }

  /** The guards of applyRule(), in its order. */
  predicate Fires(rule: Rule, text: Text, tag: string, steps: nat) {
    && (rule.kind == OnlyFinal ==> tag == "")
    && (rule.kind == Rewrite ==> text == rule.conEnd)
    && (rule.kind == NeverFinal ==> tag != "")
    && !(|text| == |rule.conEnd| && rule.decEnd == [])
    && steps <= MAX_PROPER_STEPS - 1
    && EndsWith(text, rule.conEnd)
  }

  function Rewritten(rule: Rule, text: Text): Text
    requires EndsWith(text, rule.conEnd)
  {
    Stem(text, rule.conEnd) + rule.decEnd
  }

  predicate FiresOn(rules: seq<Rule>, item: Item, k: nat) {
    k < |rules| && Fires(rules[k], item.text, item.tag, Steps(rules, item.trail))
  }

  function Child(rules: seq<Rule>, item: Item, k: nat): Item
    requires FiresOn(rules, item, k)
  {
    Item(Rewritten(rules[k], item.text), rules[k].decTag, item.trail + [k])
  }

  /** The seed consumes any rule; a later form only a rule whose conTag is the form's tag. */
  predicate TagAllows(rules: seq<Rule>, item: Item, k: nat) {
    k < |rules| && (item.trail == [] || rules[k].conTag == item.tag)
  }

  // ---------------------------------------------------------------- the rules a form consults

  ghost function CharCandidates(rules: seq<Rule>, item: Item): seq<nat> {
    if item.text == [] then []
    else
      var c := Last(item.text);
      SelectIndices(rules, if item.trail == [] then LastChar(c) else LastCharTag(c, item.tag))
  }

  ghost function EmptyCandidates(rules: seq<Rule>, item: Item): seq<nat> {
    SelectIndices(rules, if item.trail == [] then EmptyEnd else EmptyEndTag(item.tag))
  }

  /** The positions of the rules one form consults, in consultation order. */
  ghost function Candidates(rules: seq<Rule>, item: Item): seq<nat> {
    CharCandidates(rules, item) + EmptyCandidates(rules, item)
  }

  // ---------------------------------------------------------------- the successors of a form

  /** discoveredFormsContain() over the forms one form has produced so far: same text, tag and label,
      and a step count equal to the parent's own, so only an improper step can repeat. */
  predicate Repeats(rules: seq<Rule>, prior: seq<Item>, item: Item, k: nat)
    requires FiresOn(rules, item, k)
  {
    exists i :: 0 <= i < |prior| && SameOutcome(rules, prior[i], item, k)
  }

  predicate SameOutcome(rules: seq<Rule>, g: Item, item: Item, k: nat)
    requires FiresOn(rules, item, k)
  {
    && g.trail != []
    && g.text == Rewritten(rules[k], item.text)
    && g.tag == rules[k].decTag
    && Steps(rules, g.trail) == Steps(rules, item.trail)
    && Label(rules, Last(g.trail)) == rules[k].detail
  }

  /** What applying the rules at the given positions to one form pushes, in order. */
  ghost function Successors(rules: seq<Rule>, item: Item, order: seq<nat>): seq<Item> {
    if order == [] then []
    else
      var prior := Successors(rules, item, Front(order));
      var k := Last(order);
      if FiresOn(rules, item, k) && !Repeats(rules, prior, item, k)
      then prior + [Child(rules, item, k)]
      else prior
  }

  lemma CandidateExact(rules: seq<Rule>, item: Item)
    ensures forall k: nat :: k in Candidates(rules, item) <==>
      TagAllows(rules, item, k)
      && (rules[k].conEnd == [] || (item.text != [] && Last(rules[k].conEnd) == Last(item.text)))
    ensures forall i, j :: 0 <= i < j < |Candidates(rules, item)| ==>
      Candidates(rules, item)[i] != Candidates(rules, item)[j]
  {
    if item.text != [] {
      var c := Last(item.text);
      SelectIndicesExact(rules, if item.trail == [] then LastChar(c) else LastCharTag(c, item.tag));
    }
    SelectIndicesExact(rules, if item.trail == [] then EmptyEnd else EmptyEndTag(item.tag));
  }

  ghost function Children(rules: seq<Rule>, item: Item): seq<Item> {
    Successors(rules, item, Candidates(rules, item))
  }

  /** The bucketed lookup refines a flat scan: a rule is consulted and fires exactly when, among all
      virtual rules, its tag condition holds and it fires. */
  lemma BucketsRefineFlatScan(rules: seq<Rule>, item: Item, k: nat)
    ensures (k in Candidates(rules, item) && FiresOn(rules, item, k))
       <==> (TagAllows(rules, item, k) && FiresOn(rules, item, k))
  {
    CandidateExact(rules, item);
    if FiresOn(rules, item, k) && rules[k].conEnd != [] {
      var suffix := item.text[|item.text| - |rules[k].conEnd|..];
      assert Last(suffix) == Last(item.text);
    }
  }

  /** The forms of one generation have distinct trails of the generation's own length. */
  ghost predicate DistinctTrails(items: seq<Item>) {
    forall i, j :: 0 <= i < j < |items| ==> items[i].trail != items[j].trail
  }

  lemma {:induction false} SuccessorTrails(rules: seq<Rule>, item: Item, order: seq<nat>)
    ensures forall g :: g in Successors(rules, item, order) ==>
      g.trail != [] && Front(g.trail) == item.trail && Last(g.trail) in order
    ensures (forall i, j :: 0 <= i < j < |order| ==> order[i] != order[j]) ==>
      DistinctTrails(Successors(rules, item, order))
  {
    if order != [] {
      var before := Front(order);
      SuccessorTrails(rules, item, before);
      if forall i, j :: 0 <= i < j < |order| ==> order[i] != order[j] {
        forall g | g in Successors(rules, item, before)
          ensures Last(g.trail) != Last(order)
        {
          var i :| 0 <= i < |before| && before[i] == Last(g.trail);
          assert order[i] == before[i];
        }
      }
    }
  }

  // ---------------------------------------------------------------- generations

  ghost function Expand(rules: seq<Rule>, items: seq<Item>): seq<Item> {
    if items == [] then [] else Expand(rules, Front(items)) + Children(rules, Last(items))
  }

  function Seed(text: Text): Item {
    Item(text, "", [])
  }

  /** The forms of generation n. */
  ghost function Generation(rules: seq<Rule>, text: Text, n: nat): seq<Item> {
    if n == 0 then [Seed(text)] else Expand(rules, Generation(rules, text, n - 1))
  }

  /** The forms of the first n generations, in visiting order. */
  ghost function Visited(rules: seq<Rule>, text: Text, n: nat): seq<Item> {
    if n == 0 then [] else Visited(rules, text, n - 1) + Generation(rules, text, n - 1)
  }

  lemma {:induction false} ExpandTrails(rules: seq<Rule>, items: seq<Item>)
    requires DistinctTrails(items)
    ensures DistinctTrails(Expand(rules, items))
    ensures forall g :: g in Expand(rules, items) ==>
      g.trail != [] && exists i :: 0 <= i < |items| && items[i].trail == Front(g.trail)
  {
    if items != [] {
      var n := |items| - 1;
      ExpandTrails(rules, Front(items));
      CandidateExact(rules, Last(items));
      SuccessorTrails(rules, Last(items), Candidates(rules, Last(items)));
      var earlier := Expand(rules, Front(items));
      var mine := Children(rules, Last(items));
      assert Expand(rules, items) == earlier + mine;
      forall i, j | 0 <= i < |earlier| && 0 <= j < |mine|
        ensures earlier[i].trail != mine[j].trail
      {
        assert earlier[i] in earlier;
      }
      forall g | g in Expand(rules, items)
        ensures g.trail != [] && exists i :: 0 <= i < |items| && items[i].trail == Front(g.trail)
      {
        if g in earlier {
          var i :| 0 <= i < n && Front(items)[i].trail == Front(g.trail);
          assert items[i].trail == Front(g.trail);
        } else {
          assert items[n].trail == Front(g.trail);
        }
      }
    }
  }

  /** No two forms of a generation share a process node, and generation n holds paths of n steps. */
  lemma {:induction false} GenerationTrails(rules: seq<Rule>, text: Text, n: nat)
    ensures DistinctTrails(Generation(rules, text, n))
    ensures forall g :: g in Generation(rules, text, n) ==> |g.trail| == n
  {
    if n > 0 {
      GenerationTrails(rules, text, n - 1);
      ExpandTrails(rules, Generation(rules, text, n - 1));
    }
  }

  // ---------------------------------------------------------------- the fewest-steps filter

  predicate SameKey(a: Item, b: Item) {
    a.text == b.text && a.tag == b.tag
  }

  /** Swap-with-last deletion. */
  function SwapRemove<T>(s: seq<T>, i: nat): seq<T>
    requires i < |s|
  {
    if i == |s| - 1 then Front(s) else Front(s[i := Last(s)])
  }

  datatype ScanResult = ScanResult(kept: seq<Item>, add: bool)

  /** The downward scan over the accepted forms, from position n - 1. */
  ghost function Scan(rules: seq<Rule>, kept: seq<Item>, item: Item, n: nat): ScanResult
    requires n <= |kept|
    decreases n
  {
    if n == 0 then ScanResult(kept, true)
    else
      var entry := kept[n - 1];
      if !SameKey(entry, item) then Scan(rules, kept, item, n - 1)
      else if Steps(rules, entry.trail) < Steps(rules, item.trail) then ScanResult(kept, false)
      else if Steps(rules, entry.trail) > Steps(rules, item.trail) then
        Scan(rules, SwapRemove(kept, n - 1), item, n - 1)
      else Scan(rules, kept, item, n - 1)
  }

  /** One visited form offered to the accepted forms. */
  ghost function Accept(rules: seq<Rule>, kept: seq<Item>, item: Item): seq<Item> {
    if !IsTerminal(item.tag) then kept
    else
      var scanned := Scan(rules, kept, item, |kept|);
      if scanned.add then scanned.kept + [item] else scanned.kept
  }

  ghost function AcceptAll(rules: seq<Rule>, visited: seq<Item>): seq<Item> {
    if visited == [] then [] else Accept(rules, AcceptAll(rules, Front(visited)), Last(visited))
  }

  // ---------------------------------------------------------------- the answer of a search

  /** The generation loop ends after generation n - 1. */
  ghost predicate EndsAt(rules: seq<Rule>, text: Text, n: nat) {
    Generation(rules, text, n) == []
  }

  lemma {:induction false} EndedStaysEnded(rules: seq<Rule>, text: Text, g: nat, n: nat)
    requires g <= n && EndsAt(rules, text, g)
    ensures EndsAt(rules, text, n) && Visited(rules, text, n) == Visited(rules, text, g)
    decreases n - g
  {
    hide Children;
    if g < n {
      EndedStaysEnded(rules, text, g, n - 1);
      assert Generation(rules, text, n) == Expand(rules, []) == [];
      assert Visited(rules, text, n) == Visited(rules, text, n - 1) + [];
    }
  }

  ghost function Answer(rules: seq<Rule>, text: Text, n: nat): seq<Item> {
    AcceptAll(rules, Visited(rules, text, n))
  }

  ghost function ShortestOf(items: seq<Item>, start: nat): nat {
    if items == [] then start
    else
      var before := ShortestOf(Front(items), start);
      if |Last(items).text| < before then |Last(items).text| else before
  }

  /** The reported number of leading code units no rule read. */
  ghost function Untouched(rules: seq<Rule>, text: Text, n: nat): nat {
    var shortest := ShortestOf(Visited(rules, text, n), |text|);
    if shortest > LongestOf(rules) then shortest - LongestOf(rules) else 0
  }
}
