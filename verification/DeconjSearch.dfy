/** The breadth-first search as the program runs it, over heap-allocated process nodes compared by
    pointer, proved against the functions of DeconjSpec. */
module DeconjSearch {
  import opened Basics
  import opened DeconjRules
  import opened DeconjSpec

  /** One step of a path, as an immutable list toward the root. The trail is the specification's name
      for the node. */
  class ProcessNode {
    const parent: ProcessNode?
    const detail: string
    const properStepCount: nat
    ghost const trail: seq<nat>

    constructor (parent: ProcessNode?, detail: string, properStepCount: nat, ghost trail: seq<nat>)
      ensures this.parent == parent && this.detail == detail
      ensures this.properStepCount == properStepCount && this.trail == trail
    {
      this.parent := parent;
      this.detail := detail;
      this.properStepCount := properStepCount;
      this.trail := trail;
    }
  }

  datatype Form = Form(text: Text, originalText: Text, lastTag: string, process: ProcessNode?)

  function ProperStepCount(node: ProcessNode?): nat {
    if node == null then 0 else node.properStepCount
  }

  // ---------------------------------------------------------------- abstraction

  ghost function TrailOf(node: ProcessNode?): seq<nat> {
    if node == null then [] else node.trail
  }

  /** A node stores the count, the label and the parent its trail calls for. */
  ghost predicate NodeOk(rules: seq<Rule>, node: ProcessNode?) {
    node != null ==>
      && node.trail != []
      && node.properStepCount == Steps(rules, node.trail)
      && node.detail == Label(rules, Last(node.trail))
      && TrailOf(node.parent) == Front(node.trail)
      && (node.parent == null <==> |node.trail| == 1)
  }

  ghost predicate FormOk(rules: seq<Rule>, form: Form) {
    NodeOk(rules, form.process)
  }

  ghost function Abs(form: Form): Item {
    Item(form.text, form.lastTag, TrailOf(form.process))
  }

  ghost predicate FormsOk(rules: seq<Rule>, surface: Text, forms: seq<Form>) {
    forall i :: 0 <= i < |forms| ==> FormOk(rules, forms[i]) && forms[i].originalText == surface
  }

  ghost function AbsAll(forms: seq<Form>): seq<Item> {
    seq(|forms|, i requires 0 <= i < |forms| => Abs(forms[i]))
  }

  // ---------------------------------------------------------------- one rule

  predicate SameDiscovery(form: Form, stem: Text, rule: Rule, parent: ProcessNode?) {
    && form.lastTag == rule.decTag
    && |form.text| == |stem| + |rule.decEnd|
    && form.text[..|stem|] == stem && form.text[|stem|..] == rule.decEnd
    && form.process != null
    && form.process.properStepCount == ProperStepCount(parent)
    && form.process.detail == rule.detail
    && form.process.parent == parent
  }

  predicate DiscoveredFormsContain(discovered: seq<Form>, stem: Text, rule: Rule, parent: ProcessNode?) {
    exists i :: 0 <= i < |discovered| && SameDiscovery(discovered[i], stem, rule, parent)
  }

  /** The forms of earlier parents, then the forms this parent has pushed. */
  ghost predicate SplitByParent(newForms: seq<Form>, split: nat, form: Form) {
    && split <= |newForms|
    && (forall i :: 0 <= i < split ==>
         newForms[i].process != null && TrailOf(newForms[i].process.parent) != TrailOf(form.process))
    && (forall i :: split <= i < |newForms| ==>
         newForms[i].process != null && newForms[i].process.parent == form.process)
  }

  /** The generation-wide repeat test only ever meets forms of the same parent. */
  lemma RepeatTestIsPerParent(rules: seq<Rule>, surface: Text, newForms: seq<Form>, split: nat, form: Form, k: nat)
    requires FormOk(rules, form) && k < |rules| && FiresOn(rules, Abs(form), k)
    requires FormsOk(rules, surface, newForms) && SplitByParent(newForms, split, form)
    ensures DiscoveredFormsContain(newForms, Stem(form.text, rules[k].conEnd), rules[k], form.process)
       <==> Repeats(rules, AbsAll(newForms[split..]), Abs(form), k)
  {
    var stem := Stem(form.text, rules[k].conEnd);
    var prior := newForms[split..];
    forall i | split <= i < |newForms|
      ensures SameDiscovery(newForms[i], stem, rules[k], form.process)
         <==> SameOutcome(rules, AbsAll(prior)[i - split], Abs(form), k)
    {
      var g := newForms[i];
      assert prior[i - split] == g;
      assert stem + rules[k].decEnd == Rewritten(rules[k], form.text);
      if g.text == stem + rules[k].decEnd {
        assert g.text[..|stem|] == stem && g.text[|stem|..] == rules[k].decEnd;
      }
      if SameDiscovery(g, stem, rules[k], form.process) {
        assert g.text == g.text[..|stem|] + g.text[|stem|..];
      }
    }
    if Repeats(rules, AbsAll(prior), Abs(form), k) {
      var i :| 0 <= i < |prior| && SameOutcome(rules, AbsAll(prior)[i], Abs(form), k);
      assert SameDiscovery(newForms[i + split], stem, rules[k], form.process);
    }
  }

  lemma PushChild(rules: seq<Rule>, newForms: seq<Form>, split: nat, form: Form, k: nat, next: Form)
    requires FormOk(rules, form) && k < |rules| && FiresOn(rules, Abs(form), k)
    requires FormsOk(rules, form.originalText, newForms) && SplitByParent(newForms, split, form)
    requires next.text == Rewritten(rules[k], form.text) && next.originalText == form.originalText
    requires next.lastTag == rules[k].decTag && next.process != null && next.process.parent == form.process
    requires next.process.trail == TrailOf(form.process) + [k] && next.process.detail == rules[k].detail
    requires next.process.properStepCount ==
      if form.process == null then 1
      else form.process.properStepCount + (if IsProper(rules[k].detail) then 1 else 0)
    ensures FormsOk(rules, form.originalText, newForms + [next]) && SplitByParent(newForms + [next], split, form)
    ensures (newForms + [next])[..split] == newForms[..split]
    ensures AbsAll((newForms + [next])[split..]) == AbsAll(newForms[split..]) + [Child(rules, Abs(form), k)]
  {
    assert Front(next.process.trail) == TrailOf(form.process);
    assert FormOk(rules, next);
    assert (newForms + [next])[split..] == newForms[split..] + [next];
    assert Abs(next) == Child(rules, Abs(form), k);
  }

  /** applyRule(): pushes the successor of form under one rule, unless a guard or a repeat stops it. */
  method ApplyRule(form: Form, rule: Rule, newForms: seq<Form>,
                   ghost rules: seq<Rule>, ghost k: nat, ghost split: nat) returns (pushed: seq<Form>)
    requires FormOk(rules, form) && k < |rules| && rule == rules[k]
    requires FormsOk(rules, form.originalText, newForms) && SplitByParent(newForms, split, form)
    ensures FormsOk(rules, form.originalText, pushed) && SplitByParent(pushed, split, form)
    ensures pushed[..split] == newForms[..split]
    ensures AbsAll(pushed[split..]) ==
      if FiresOn(rules, Abs(form), k) && !Repeats(rules, AbsAll(newForms[split..]), Abs(form), k)
      then AbsAll(newForms[split..]) + [Child(rules, Abs(form), k)]
      else AbsAll(newForms[split..])
  {
    hide Repeats, DiscoveredFormsContain, SplitByParent, FormsOk, AbsAll;
    pushed := newForms;
    match rule.kind {
      case OnlyFinal => if form.lastTag != "" { return; }
      case Rewrite => if form.text != rule.conEnd { return; }
      case NeverFinal => if form.lastTag == "" { return; }
      case Standard =>
    }
    if |form.text| == |rule.conEnd| && rule.decEnd == [] {
      return;
    }
    if ProperStepCount(form.process) > MAX_PROPER_STEPS - 1 {
      return;
    }
    if |rule.conEnd| > |form.text| || form.text[|form.text| - |rule.conEnd|..] != rule.conEnd {
      return;
    }
    var stem := form.text[..|form.text| - |rule.conEnd|];
    RepeatTestIsPerParent(rules, form.originalText, newForms, split, form, k);
    if DiscoveredFormsContain(newForms, stem, rule, form.process) {
      return;
    }
    var parentSteps := ProperStepCount(form.process);
    var properStep := rule.detail != "" && rule.detail[0] != '(';
    var steps := if form.process != null then parentSteps + (if properStep then 1 else 0) else 1;
    var node := new ProcessNode(form.process, rule.detail, steps, TrailOf(form.process) + [k]);
    var next := Form(stem + rule.decEnd, form.originalText, rule.decTag, node);
    pushed := newForms + [next];
    PushChild(rules, newForms, split, form, k, next);
  }

  /** applyRule() over one rule list of a bucket. */
  method ApplyRules(form: Form, list: seq<Rule>, newForms: seq<Form>,
                    ghost rules: seq<Rule>, ghost indices: seq<nat>, ghost before: seq<nat>, ghost split: nat)
    returns (pushed: seq<Form>)
    requires FormOk(rules, form)
    requires |list| == |indices|
    requires forall i :: 0 <= i < |list| ==> indices[i] < |rules| && list[i] == rules[indices[i]]
    requires FormsOk(rules, form.originalText, newForms) && SplitByParent(newForms, split, form)
    requires AbsAll(newForms[split..]) == Successors(rules, Abs(form), before)
    ensures FormsOk(rules, form.originalText, pushed) && SplitByParent(pushed, split, form)
    ensures pushed[..split] == newForms[..split]
    ensures AbsAll(pushed[split..]) == Successors(rules, Abs(form), before + indices)
  {
    pushed := newForms;
    assert before + indices[..0] == before;
    for i := 0 to |list|
      invariant FormsOk(rules, form.originalText, pushed) && SplitByParent(pushed, split, form)
      invariant pushed[..split] == newForms[..split]
      invariant AbsAll(pushed[split..]) == Successors(rules, Abs(form), before + indices[..i])
    {
      ghost var order := before + indices[..i + 1];
      assert Front(order) == before + indices[..i] && Last(order) == indices[i];
      pushed := ApplyRule(form, list[i], pushed, rules, indices[i], split);
    }
    assert indices[..|list|] == indices;
  }

  // ---------------------------------------------------------------- one form

  /** applyBucket(): the seed consults every rule of the bucket, a later form the rules whose conTag
      is the tag it carries. */
  method ApplyBucket(form: Form, bucket: RuleBucket, newForms: seq<Form>,
                     ghost rules: seq<Rule>, ghost all: Selector, ghost tagged: Selector,
                     ghost before: seq<nat>, ghost split: nat)
    returns (pushed: seq<Form>)
    requires FormOk(rules, form)
    requires bucket.allRules == SelectRules(rules, all)
    requires form.lastTag in bucket.rulesByConTag <==> SelectRules(rules, tagged) != []
    requires form.lastTag in bucket.rulesByConTag ==>
      bucket.rulesByConTag[form.lastTag] == SelectRules(rules, tagged)
    requires FormsOk(rules, form.originalText, newForms) && SplitByParent(newForms, split, form)
    requires AbsAll(newForms[split..]) == Successors(rules, Abs(form), before)
    ensures FormsOk(rules, form.originalText, pushed) && SplitByParent(pushed, split, form)
    ensures pushed[..split] == newForms[..split]
    ensures var order := before + SelectIndices(rules, if form.process == null then all else tagged);
      AbsAll(pushed[split..]) == Successors(rules, Abs(form), order)
  {
    SelectIndicesExact(rules, all);
    SelectIndicesExact(rules, tagged);
    if form.process == null {
      pushed := ApplyRules(form, bucket.allRules, newForms, rules, SelectIndices(rules, all), before, split);
      return;
    }
    if form.lastTag !in bucket.rulesByConTag {
      assert before + SelectIndices(rules, tagged) == before;
      return newForms;
    }
    pushed := ApplyRules(form, bucket.rulesByConTag[form.lastTag], newForms, rules,
                         SelectIndices(rules, tagged), before, split);
  }

  /** The bucket of the rules ending on the form's last character, when the rule set has one. */
  method ExpandByLastChar(ruleSet: RuleSet, form: Form, newForms: seq<Form>) returns (pushed: seq<Form>)
    requires ruleSet.Valid() && FormOk(ruleSet.virtualRules, form)
    requires FormsOk(ruleSet.virtualRules, form.originalText, newForms)
    requires SplitByParent(newForms, |newForms|, form)
    ensures FormsOk(ruleSet.virtualRules, form.originalText, pushed)
    ensures SplitByParent(pushed, |newForms|, form) && pushed[..|newForms|] == newForms
    ensures AbsAll(pushed[|newForms|..]) ==
      Successors(ruleSet.virtualRules, Abs(form), CharCandidates(ruleSet.virtualRules, Abs(form)))
  {
    ghost var rules, split := ruleSet.virtualRules, |newForms|;
    pushed := newForms;
    assert AbsAll(pushed[split..]) == [];
    if form.text != [] {
      var c := Last(form.text);
      if c in ruleSet.byLastConEndChar {
        pushed := ApplyBucket(form, ruleSet.byLastConEndChar[c], pushed, rules,
                              LastChar(c), LastCharTag(c, form.lastTag), [], split);
        assert [] + CharCandidates(rules, Abs(form)) == CharCandidates(rules, Abs(form));
      } else {
        TagListsEmpty(rules, c);
        SelectIndicesExact(rules, LastChar(c));
        SelectIndicesExact(rules, LastCharTag(c, form.lastTag));
      }
    }
  }

  /** Both buckets one form consults. */
  method ExpandForm(ruleSet: RuleSet, form: Form, newForms: seq<Form>) returns (pushed: seq<Form>)
    requires ruleSet.Valid() && FormOk(ruleSet.virtualRules, form)
    requires FormsOk(ruleSet.virtualRules, form.originalText, newForms)
    requires SplitByParent(newForms, |newForms|, form)
    ensures FormsOk(ruleSet.virtualRules, form.originalText, pushed)
    ensures SplitByParent(pushed, |newForms|, form)
    ensures AbsAll(pushed) == AbsAll(newForms) + Children(ruleSet.virtualRules, Abs(form))
  {
    hide Successors;
    hide SelectRules;
    hide SelectIndices;
    hide CharCandidates;
    ghost var rules, split := ruleSet.virtualRules, |newForms|;
    pushed := ExpandByLastChar(ruleSet, form, newForms);
    pushed := ApplyBucket(form, ruleSet.emptyConEnd, pushed, rules, EmptyEnd, EmptyEndTag(form.lastTag),
                          CharCandidates(rules, Abs(form)), split);
    assert pushed == pushed[..split] + pushed[split..];
    assert AbsAll(pushed) == AbsAll(pushed[..split]) + AbsAll(pushed[split..]);
  }

  // ---------------------------------------------------------------- the filter

  lemma SwapRemoveForms(rules: seq<Rule>, surface: Text, forms: seq<Form>, i: nat)
    requires FormsOk(rules, surface, forms) && i < |forms|
    ensures FormsOk(rules, surface, SwapRemove(forms, i))
    ensures AbsAll(SwapRemove(forms, i)) == SwapRemove(AbsAll(forms), i)
  {
  }

  /** What the rest of the scan does, by what it finds at position i. */
  ghost function ScanForms(rules: seq<Rule>, surface: Text, kept: seq<Form>, form: Form, i: nat): ScanResult
    requires FormsOk(rules, surface, kept) && FormOk(rules, form) && i <= |kept|
  {
    Scan(rules, AbsAll(kept), Abs(form), i)
  }

  lemma ScanFormsAt(rules: seq<Rule>, surface: Text, kept: seq<Form>, form: Form, i: nat)
    requires FormsOk(rules, surface, kept) && FormOk(rules, form) && i < |kept|
    ensures FormsOk(rules, surface, SwapRemove(kept, i))
    ensures ScanForms(rules, surface, kept, form, i + 1) ==
      if kept[i].text != form.text || kept[i].lastTag != form.lastTag then ScanForms(rules, surface, kept, form, i)
      else if ProperStepCount(kept[i].process) < ProperStepCount(form.process) then ScanResult(AbsAll(kept), false)
      else if ProperStepCount(kept[i].process) > ProperStepCount(form.process) then
        ScanForms(rules, surface, SwapRemove(kept, i), form, i)
      else ScanForms(rules, surface, kept, form, i)
  {
    SwapRemoveForms(rules, surface, kept, i);
  }

  lemma ScanFormsEnd(rules: seq<Rule>, surface: Text, kept: seq<Form>, form: Form)
    requires FormsOk(rules, surface, kept) && FormOk(rules, form)
    ensures ScanForms(rules, surface, kept, form, 0) == ScanResult(AbsAll(kept), true)
  {
  }

  /** The accept loop: scans downward, deletes every strictly worse entry by swapping the last one in,
      stops at the first strictly better one. */
  method ScanProcessed(processedForms: seq<Form>, form: Form, ghost rules: seq<Rule>)
    returns (kept: seq<Form>, add: bool)
    requires FormsOk(rules, form.originalText, processedForms) && FormOk(rules, form)
    ensures FormsOk(rules, form.originalText, kept)
    ensures ScanResult(AbsAll(kept), add) ==
      ScanForms(rules, form.originalText, processedForms, form, |processedForms|)
  {
    hide ScanForms;
    hide NodeOk;
    kept, add := processedForms, true;
    var formSteps := ProperStepCount(form.process);
    var i := |processedForms|;
    ghost var target := ScanForms(rules, form.originalText, processedForms, form, |processedForms|);
    while i > 0
      invariant 0 <= i <= |kept|
      invariant FormsOk(rules, form.originalText, kept)
      invariant target == ScanForms(rules, form.originalText, kept, form, i)
    {
      i := i - 1;
      ScanFormsAt(rules, form.originalText, kept, form, i);
      if kept[i].text != form.text || kept[i].lastTag != form.lastTag {
        continue;
      }
      var existingSteps := ProperStepCount(kept[i].process);
      if existingSteps < formSteps {
        add := false;
        return;
      }
      if existingSteps > formSteps {
        if i != |kept| - 1 {
          kept := kept[i := kept[|kept| - 1]];
        }
        kept := kept[..|kept| - 1];
      }
    }
    ScanFormsEnd(rules, form.originalText, kept, form);
  }

  /** The accept step of one terminal form. */
  method AcceptForm(processedForms: seq<Form>, form: Form, ghost rules: seq<Rule>) returns (kept: seq<Form>)
    requires FormsOk(rules, form.originalText, processedForms) && FormOk(rules, form)
    requires IsTerminal(form.lastTag)
    ensures FormsOk(rules, form.originalText, kept)
    ensures AbsAll(kept) == Accept(rules, AbsAll(processedForms), Abs(form))
  {
    var add: bool;
    kept, add := ScanProcessed(processedForms, form, rules);
    if add {
      kept := kept + [form];
    }
  }

  // ---------------------------------------------------------------- the search

  /** What the accepted forms and the shortest length are after the given forms were visited. */
  ghost predicate Filtered(rules: seq<Rule>, surface: Text, visited: seq<Item>, processed: seq<Form>, shortest: nat) {
    && FormsOk(rules, surface, processed)
    && AbsAll(processed) == AcceptAll(rules, visited)
    && shortest == ShortestOf(visited, |surface|)
  }

  /** Offers one visited form to the filter. */
  method VisitForm(form: Form, processed: seq<Form>, shortest: nat, ghost rules: seq<Rule>, ghost visited: seq<Item>)
    returns (processed': seq<Form>, shortest': nat)
    requires FormOk(rules, form) && Filtered(rules, form.originalText, visited, processed, shortest)
    ensures Filtered(rules, form.originalText, visited + [Abs(form)], processed', shortest')
  {
    assert Front(visited + [Abs(form)]) == visited;
    shortest' := if |form.text| < shortest then |form.text| else shortest;
    processed' := processed;
    if IsTerminal(form.lastTag) {
      processed' := AcceptForm(processed, form, rules);
    }
  }

  lemma EarlierParentsDiffer(rules: seq<Rule>, surface: Text, newForms: seq<Form>, items: seq<Item>, n: nat, form: Form)
    requires FormsOk(rules, surface, newForms) && n < |items| && items[n] == Abs(form)
    requires DistinctTrails(items) && AbsAll(newForms) == Expand(rules, items[..n])
    ensures SplitByParent(newForms, |newForms|, form)
  {
    ExpandTrails(rules, items[..n]);
    forall i | 0 <= i < |newForms|
      ensures newForms[i].process != null && TrailOf(newForms[i].process.parent) != TrailOf(form.process)
    {
      var g := Expand(rules, items[..n])[i];
      assert g == AbsAll(newForms)[i];
      assert g in Expand(rules, items[..n]);
    }
  }

  /** The successors of the first n forms of a generation have been pushed. */
  ghost predicate Expanded(rules: seq<Rule>, surface: Text, items: seq<Item>, newForms: seq<Form>) {
    && FormsOk(rules, surface, newForms)
    && AbsAll(newForms) == Expand(rules, items)
  }

  lemma ExpandedNone(rules: seq<Rule>, surface: Text)
    ensures Expanded(rules, surface, [], [])
  {
  }

  method ExpandNext(ruleSet: RuleSet, form: Form, newForms: seq<Form>, ghost items: seq<Item>)
    returns (newForms': seq<Form>)
    requires ruleSet.Valid() && FormOk(ruleSet.virtualRules, form)
    requires Expanded(ruleSet.virtualRules, form.originalText, items, newForms)
    requires DistinctTrails(items + [Abs(form)])
    ensures Expanded(ruleSet.virtualRules, form.originalText, items + [Abs(form)], newForms')
  {
    ghost var rules, upto := ruleSet.virtualRules, items + [Abs(form)];
    assert Front(upto) == items;
    assert upto[..|items|] == items;
    EarlierParentsDiffer(rules, form.originalText, newForms, upto, |items|, form);
    newForms' := ExpandForm(ruleSet, form, newForms);
  }

  /** Runs the forms of one generation: pushes their successors and offers each to the filter. */
  method RunGeneration(ruleSet: RuleSet, formsToProcess: seq<Form>, processed: seq<Form>, shortest: nat,
                       ghost surface: Text, ghost visited: seq<Item>)
    returns (newForms: seq<Form>, processed': seq<Form>, shortest': nat)
    requires ruleSet.Valid() && FormsOk(ruleSet.virtualRules, surface, formsToProcess)
    requires DistinctTrails(AbsAll(formsToProcess))
    requires Filtered(ruleSet.virtualRules, surface, visited, processed, shortest)
    ensures Expanded(ruleSet.virtualRules, surface, AbsAll(formsToProcess), newForms)
    ensures Filtered(ruleSet.virtualRules, surface, visited + AbsAll(formsToProcess), processed', shortest')
  {
    hide Expand;
    hide AcceptAll;
    hide ShortestOf;
    ghost var rules, items := ruleSet.virtualRules, AbsAll(formsToProcess);
    newForms, processed', shortest' := [], processed, shortest;
    ExpandedNone(rules, surface);
    assert visited + items[..0] == visited;
    for n := 0 to |formsToProcess|
      invariant Expanded(rules, surface, items[..n], newForms)
      invariant Filtered(rules, surface, visited + items[..n], processed', shortest')
    {
      var form := formsToProcess[n];
      assert items[..n + 1] == items[..n] + [Abs(form)];
      newForms := ExpandNext(ruleSet, form, newForms, items[..n]);
      processed', shortest' := VisitForm(form, processed', shortest', rules, visited + items[..n]);
      assert visited + items[..n + 1] == (visited + items[..n]) + [Abs(form)];
    }
    assert items[..|formsToProcess|] == items;
  }

  /** The forms waiting to be visited are those of generation g. */
  ghost predicate Frontier(rules: seq<Rule>, surface: Text, g: nat, forms: seq<Form>) {
    FormsOk(rules, surface, forms) && AbsAll(forms) == Generation(rules, surface, g)
  }

  method NextGeneration(ruleSet: RuleSet, formsToProcess: seq<Form>, processed: seq<Form>, shortest: nat,
                        ghost surface: Text, ghost g: nat)
    returns (newForms: seq<Form>, processed': seq<Form>, shortest': nat)
    requires ruleSet.Valid() && Frontier(ruleSet.virtualRules, surface, g, formsToProcess)
    requires Filtered(ruleSet.virtualRules, surface, Visited(ruleSet.virtualRules, surface, g), processed, shortest)
    ensures Frontier(ruleSet.virtualRules, surface, g + 1, newForms)
    ensures Filtered(ruleSet.virtualRules, surface, Visited(ruleSet.virtualRules, surface, g + 1), processed',
                     shortest')
  {
    GenerationTrails(ruleSet.virtualRules, surface, g);
    newForms, processed', shortest' :=
      RunGeneration(ruleSet, formsToProcess, processed, shortest, surface, Visited(ruleSet.virtualRules, surface, g));
  }

  /** What holds between two generations of the loop. */
  ghost predicate Searching(rules: seq<Rule>, surface: Text, g: nat, forms: seq<Form>, processed: seq<Form>,
                            shortest: nat)
  {
    Frontier(rules, surface, g, forms) && Filtered(rules, surface, Visited(rules, surface, g), processed, shortest)
  }

  lemma SearchStarts(rules: seq<Rule>, text: Text)
    ensures Searching(rules, text, 0, [Form(text, text, "", null)], [], |text|)
  {
    assert AbsAll([Form(text, text, "", null)]) == [Seed(text)];
  }

  lemma SearchEnded(rules: seq<Rule>, text: Text, g: nat, processed: seq<Form>, shortest: nat, n: nat)
    requires Searching(rules, text, g, [], processed, shortest) && g <= n
    ensures FormsOk(rules, text, processed) && AbsAll(processed) == Answer(rules, text, n)
    ensures Untouched(rules, text, n) == if shortest > LongestOf(rules) then shortest - LongestOf(rules) else 0
  {
    assert Generation(rules, text, g) == AbsAll([]) == [];
    EndedStaysEnded(rules, text, g, n);
  }

  lemma SearchContinues(rules: seq<Rule>, text: Text, g: nat, forms: seq<Form>, n: nat)
    requires Frontier(rules, text, g, forms) && forms != [] && EndsAt(rules, text, n) && g <= n
    ensures g < n
  {
    assert |AbsAll(forms)| > 0;
  }

  /** The generation loop of deconjugate(). */
  method RunSearch(ruleSet: RuleSet, text: Text, ghost n: nat)
    returns (processedForms: seq<Form>, shortestForm: nat, ghost g: nat)
    requires ruleSet.Valid() && EndsAt(ruleSet.virtualRules, text, n)
    ensures g <= n && Searching(ruleSet.virtualRules, text, g, [], processedForms, shortestForm)
  {
    var formsToProcess := [Form(text, text, "", null)];
    processedForms, shortestForm, g := [], |text|, 0;
    SearchStarts(ruleSet.virtualRules, text);
    while formsToProcess != []
      invariant g <= n && Searching(ruleSet.virtualRules, text, g, formsToProcess, processedForms, shortestForm)
      decreases n - g
    {
      SearchContinues(ruleSet.virtualRules, text, g, formsToProcess, n);
      formsToProcess, processedForms, shortestForm :=
        NextGeneration(ruleSet, formsToProcess, processedForms, shortestForm, text, g);
      g := g + 1;
    }
  }

  /** deconjugate(): the accepted forms and the untouched prefix, for a search whose generation loop
      ends. Without an end the original loops forever. */
  method Deconjugate(ruleSet: RuleSet, text: Text, ghost n: nat)
    returns (processedForms: seq<Form>, untouchedPrefix: nat)
    requires ruleSet.Valid() && EndsAt(ruleSet.virtualRules, text, n)
    ensures FormsOk(ruleSet.virtualRules, text, processedForms)
    ensures AbsAll(processedForms) == Answer(ruleSet.virtualRules, text, n)
    ensures untouchedPrefix == Untouched(ruleSet.virtualRules, text, n)
  {
    var shortestForm: nat;
    ghost var g: nat;
    processedForms, shortestForm, g := RunSearch(ruleSet, text, n);
    SearchEnded(ruleSet.virtualRules, text, g, processedForms, shortestForm, n);
    untouchedPrefix := if shortestForm > ruleSet.longestConEnd then shortestForm - ruleSet.longestConEnd else 0;
  }
}
