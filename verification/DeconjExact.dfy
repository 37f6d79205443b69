/** The search is exact for the rule relation: what it visits are the derivations of the rule set, and
    what it answers are those with the fewest proper steps for their lemma and word class. */
module DeconjExact {
  import opened Basics
  import opened DeconjRules
  import opened DeconjSpec

  // ---------------------------------------------------------------- derivations

  predicate InRules(rules: seq<Rule>, trail: seq<nat>) {
    forall i :: 0 <= i < |trail| ==> trail[i] < |rules|
  }

  /** The tag a path carries after its first i steps. */
  function TagAt(rules: seq<Rule>, trail: seq<nat>, i: nat): string
    requires InRules(rules, trail) && i <= |trail|
  {
    if i == 0 then "" else rules[trail[i - 1]].decTag
  }

  /** Step i of a path: some stem carries the conjugated ending before and the deconjugated ending
      after, the tags chain from the second step on, the guard admits the step, the result is not
      empty and fewer than eight proper steps precede. */
  ghost predicate IsStep(rules: seq<Rule>, trail: seq<nat>, i: nat, before: Text, after: Text)
    requires InRules(rules, trail) && i < |trail|
  {
    var rule := rules[trail[i]];
    && (exists stem: Text :: before == stem + rule.conEnd && after == stem + rule.decEnd
          && (rule.kind == Rewrite ==> stem == []))
    && (i > 0 ==> rule.conTag == TagAt(rules, trail, i))
    && (rule.kind == OnlyFinal ==> TagAt(rules, trail, i) == "")
    && (rule.kind == NeverFinal ==> TagAt(rules, trail, i) != "")
    && after != []
    && Steps(rules, trail[..i]) < MAX_PROPER_STEPS
  }

  /** texts are the forms a path runs through, from the surface text on. */
  ghost predicate IsDerivation(rules: seq<Rule>, surface: Text, trail: seq<nat>, texts: seq<Text>) {
    && InRules(rules, trail)
    && |texts| == |trail| + 1 && texts[0] == surface
    && forall i :: 0 <= i < |trail| ==> IsStep(rules, trail, i, texts[i], texts[i + 1])
  }

  ghost predicate Derives(rules: seq<Rule>, surface: Text, trail: seq<nat>, lemma_: Text) {
    exists texts: seq<Text> :: IsDerivation(rules, surface, trail, texts) && Last(texts) == lemma_
  }

  /** The step labels of a path. */
  function Labels(rules: seq<Rule>, trail: seq<nat>): seq<string> {
    seq(|trail|, i requires 0 <= i < |trail| => Label(rules, trail[i]))
  }

  /** Walks a path backwards from a lemma, putting each conEnd back in place of its decEnd. */
  function Undo(rules: seq<Rule>, trail: seq<nat>, text: Text): Option<Text>
    requires InRules(rules, trail)
  {
    if trail == [] then Some(text)
    else
      var rule := rules[Last(trail)];
      if EndsWith(text, rule.decEnd) then Undo(rules, Front(trail), Stem(text, rule.decEnd) + rule.conEnd)
      else None
  }

  lemma {:induction false} StepsOfPrefix(rules: seq<Rule>, trail: seq<nat>, k: nat, i: nat)
    requires InRules(rules, trail) && k < |rules| && i <= |trail|
    ensures InRules(rules, trail + [k]) && (trail + [k])[..i] == trail[..i]
    ensures TagAt(rules, trail + [k], i) == TagAt(rules, trail, i)
  {
  }

  /** Appending one step to a path. */
  lemma DerivationSnoc(rules: seq<Rule>, surface: Text, trail: seq<nat>, k: nat, texts: seq<Text>, after: Text)
    requires InRules(rules, trail) && k < |rules| && |texts| == |trail| + 1
    ensures IsDerivation(rules, surface, trail + [k], texts + [after])
       <==> IsDerivation(rules, surface, trail, texts)
            && IsStep(rules, trail + [k], |trail|, Last(texts), after)
  {
    var longer, more := trail + [k], texts + [after];
    forall i | 0 <= i < |trail|
      ensures IsStep(rules, longer, i, more[i], more[i + 1]) <==> IsStep(rules, trail, i, texts[i], texts[i + 1])
    {
      StepsOfPrefix(rules, trail, k, i);
    }
    if IsDerivation(rules, surface, longer, more) {
      assert forall i :: 0 <= i < |trail| ==> more[i] == texts[i] && IsStep(rules, longer, i, more[i], more[i + 1]);
      assert IsStep(rules, longer, |trail|, more[|trail|], more[|trail| + 1]);
    }
  }

  /** The last step of a path is what TagAllows and Fires describe. */
  lemma StepIsFiring(rules: seq<Rule>, item: Item, k: nat, after: Text)
    requires InRules(rules, item.trail) && k < |rules|
    requires item.tag == TagAt(rules, item.trail, |item.trail|)
    ensures IsStep(rules, item.trail + [k], |item.trail|, item.text, after)
       <==> TagAllows(rules, item, k) && FiresOn(rules, item, k) && after == Rewritten(rules[k], item.text)
  {
    var longer, rule := item.trail + [k], rules[k];
    StepsOfPrefix(rules, item.trail, k, |item.trail|);
    assert longer[..|item.trail|] == item.trail;
    if IsStep(rules, longer, |item.trail|, item.text, after) {
      var stem: Text :| item.text == stem + rule.conEnd && after == stem + rule.decEnd
                        && (rule.kind == Rewrite ==> stem == []);
      assert item.text[|item.text| - |rule.conEnd|..] == rule.conEnd;
      assert Stem(item.text, rule.conEnd) == stem;
    }
    if TagAllows(rules, item, k) && FiresOn(rules, item, k) && after == Rewritten(rules[k], item.text) {
      var stem := Stem(item.text, rule.conEnd);
      assert item.text == stem + rule.conEnd;
    }
  }

  // ---------------------------------------------------------------- soundness

  /** A visited form together with its path. */
  ghost predicate IsPath(rules: seq<Rule>, surface: Text, item: Item) {
    && InRules(rules, item.trail)
    && item.tag == TagAt(rules, item.trail, |item.trail|)
    && Derives(rules, surface, item.trail, item.text)
  }

  lemma SeedIsPath(rules: seq<Rule>, surface: Text)
    ensures IsPath(rules, surface, Seed(surface))
  {
    assert IsDerivation(rules, surface, [], [surface]);
    assert Last([surface]) == surface;
  }

  lemma ChildIsPath(rules: seq<Rule>, surface: Text, item: Item, k: nat)
    requires IsPath(rules, surface, item) && k < |rules| && TagAllows(rules, item, k) && FiresOn(rules, item, k)
    ensures IsPath(rules, surface, Child(rules, item, k))
  {
    var texts: seq<Text> :| IsDerivation(rules, surface, item.trail, texts) && Last(texts) == item.text;
    var child := Child(rules, item, k);
    StepIsFiring(rules, item, k, child.text);
    DerivationSnoc(rules, surface, item.trail, k, texts, child.text);
    assert Last(texts + [child.text]) == child.text;
  }

  lemma {:induction false} SuccessorsArePaths(rules: seq<Rule>, surface: Text, item: Item, order: seq<nat>)
    requires IsPath(rules, surface, item)
    requires forall k :: k in order ==> TagAllows(rules, item, k)
    ensures forall g :: g in Successors(rules, item, order) ==> IsPath(rules, surface, g)
  {
    if order != [] {
      SuccessorsArePaths(rules, surface, item, Front(order));
      assert Last(order) in order;
      if FiresOn(rules, item, Last(order)) {
        ChildIsPath(rules, surface, item, Last(order));
      }
    }
  }

  lemma {:induction false} ExpandArePaths(rules: seq<Rule>, surface: Text, items: seq<Item>)
    requires forall g :: g in items ==> IsPath(rules, surface, g)
    ensures forall g :: g in Expand(rules, items) ==> IsPath(rules, surface, g)
  {
    if items != [] {
      ExpandArePaths(rules, surface, Front(items));
      CandidateExact(rules, Last(items));
      SuccessorsArePaths(rules, surface, Last(items), Candidates(rules, Last(items)));
    }
  }

  lemma {:induction false} GenerationArePaths(rules: seq<Rule>, surface: Text, n: nat)
    ensures forall g :: g in Generation(rules, surface, n) ==> IsPath(rules, surface, g)
  {
    hide IsPath;
    hide Expand;
    if n == 0 {
      SeedIsPath(rules, surface);
    } else {
      GenerationArePaths(rules, surface, n - 1);
      ExpandArePaths(rules, surface, Generation(rules, surface, n - 1));
    }
  }

  /** Every visited form is the end of a derivation of the rule set from the surface text. */
  lemma {:induction false} VisitedAreDerivations(rules: seq<Rule>, surface: Text, n: nat)
    ensures forall g :: g in Visited(rules, surface, n) ==> IsPath(rules, surface, g)
  {
    hide IsPath;
    hide Expand;
    if n > 0 {
      VisitedAreDerivations(rules, surface, n - 1);
      GenerationArePaths(rules, surface, n - 1);
    }
  }

  /** Undoing a derivation's rules from its lemma rebuilds the surface text. */
  lemma {:induction false} UndoRebuildsSurface(rules: seq<Rule>, surface: Text, trail: seq<nat>, texts: seq<Text>)
    requires IsDerivation(rules, surface, trail, texts)
    ensures Undo(rules, trail, Last(texts)) == Some(surface)
    decreases |trail|
  {
    if trail != [] {
      var n := |trail| - 1;
      var k, shorter, fewer := trail[n], Front(trail), Front(texts);
      var rule := rules[k];
      assert trail == shorter + [k] && texts == fewer + [Last(texts)];
      DerivationSnoc(rules, surface, shorter, k, fewer, Last(texts));
      var stem: Text :| Last(fewer) == stem + rule.conEnd && Last(texts) == stem + rule.decEnd;
      assert Last(texts)[|Last(texts)| - |rule.decEnd|..] == rule.decEnd;
      assert Stem(Last(texts), rule.decEnd) == stem;
      UndoRebuildsSurface(rules, surface, shorter, fewer);
    }
  }

  // ---------------------------------------------------------------- completeness

  /** g stands for the path: same lemma, tag, step labels and step count. */
  ghost predicate Represents(rules: seq<Rule>, g: Item, trail: seq<nat>, lemma_: Text)
    requires InRules(rules, trail)
  {
    && g.text == lemma_ && g.tag == TagAt(rules, trail, |trail|)
    && Labels(rules, g.trail) == Labels(rules, trail)
  }

  /** The step count depends on the labels alone. */
  lemma {:induction false} LabelsFixSteps(rules: seq<Rule>, a: seq<nat>, b: seq<nat>)
    requires Labels(rules, a) == Labels(rules, b)
    ensures Steps(rules, a) == Steps(rules, b)
    decreases |a|
  {
    assert |a| == |Labels(rules, a)| == |Labels(rules, b)| == |b|;
    if |a| > 1 {
      assert Labels(rules, Front(a)) == Front(Labels(rules, a)) == Front(Labels(rules, b)) == Labels(rules, Front(b));
      LabelsFixSteps(rules, Front(a), Front(b));
      assert Last(Labels(rules, a)) == Label(rules, Last(a));
      assert Last(Labels(rules, b)) == Label(rules, Last(b));
    }
  }

  lemma LabelsSnoc(rules: seq<Rule>, trail: seq<nat>, k: nat)
    ensures Labels(rules, trail + [k]) == Labels(rules, trail) + [Label(rules, k)]
  {
  }

  /** A firing rule leaves a form with its outcome among the successors, repeated or not. */
  lemma {:induction false} SuccessorsCover(rules: seq<Rule>, item: Item, order: seq<nat>, k: nat) returns (g: Item)
    requires k in order && FiresOn(rules, item, k)
    ensures g in Successors(rules, item, order)
    ensures g.text == Rewritten(rules[k], item.text) && g.tag == rules[k].decTag
    ensures Labels(rules, g.trail) == Labels(rules, item.trail) + [rules[k].detail]
  {
    var prior := Successors(rules, item, Front(order));
    SuccessorTrails(rules, item, Front(order));
    if Last(order) == k {
      if Repeats(rules, prior, item, k) {
        var i :| 0 <= i < |prior| && SameOutcome(rules, prior[i], item, k);
        g := prior[i];
        assert g.trail == Front(g.trail) + [Last(g.trail)];
        LabelsSnoc(rules, item.trail, Last(g.trail));
      } else {
        g := Child(rules, item, k);
        LabelsSnoc(rules, item.trail, k);
        assert Last(Successors(rules, item, order)) == g;
      }
    } else {
      assert k in Front(order);
      g := SuccessorsCover(rules, item, Front(order), k);
    }
  }

  lemma {:induction false} ExpandCovers(rules: seq<Rule>, items: seq<Item>, i: nat)
    requires i < |items|
    ensures forall g :: g in Children(rules, items[i]) ==> g in Expand(rules, items)
  {
    if i < |items| - 1 {
      assert Front(items)[i] == items[i];
      ExpandCovers(rules, Front(items), i);
    }
  }

  /** Every derivation of length n is represented in generation n. */
  lemma {:induction false} GenerationCovers(rules: seq<Rule>, surface: Text, trail: seq<nat>, texts: seq<Text>)
    returns (g: Item)
    requires IsDerivation(rules, surface, trail, texts)
    ensures g in Generation(rules, surface, |trail|) && Represents(rules, g, trail, Last(texts))
    decreases |trail|
  {
    if trail == [] {
      g := Seed(surface);
    } else {
      var n := |trail| - 1;
      var k, shorter, fewer := trail[n], Front(trail), Front(texts);
      assert trail == shorter + [k] && texts == fewer + [Last(texts)];
      DerivationSnoc(rules, surface, shorter, k, fewer, Last(texts));
      var path := Item(Last(fewer), TagAt(rules, shorter, n), shorter);
      StepIsFiring(rules, path, k, Last(texts));
      var parent := GenerationCovers(rules, surface, shorter, fewer);
      LabelsFixSteps(rules, parent.trail, shorter);
      assert |parent.trail| == |Labels(rules, parent.trail)| == |shorter|;
      assert TagAllows(rules, parent, k) && FiresOn(rules, parent, k);
      BucketsRefineFlatScan(rules, parent, k);
      CandidateExact(rules, parent);
      g := SuccessorsCover(rules, parent, Candidates(rules, parent), k);
      var items := Generation(rules, surface, n);
      var i :| 0 <= i < |items| && items[i] == parent;
      ExpandCovers(rules, items, i);
      LabelsSnoc(rules, shorter, k);
    }
  }

  lemma {:induction false} VisitedGrows(rules: seq<Rule>, surface: Text, i: nat, n: nat)
    requires i <= n
    ensures Visited(rules, surface, i) <= Visited(rules, surface, n)
    decreases n
  {
    hide Expand;
    if i < n {
      VisitedGrows(rules, surface, i, n - 1);
    }
  }

  lemma VisitedHolds(rules: seq<Rule>, surface: Text, g: Item, i: nat, n: nat)
    requires g in Generation(rules, surface, i) && i < n
    ensures g in Visited(rules, surface, n)
  {
    var newest := Generation(rules, surface, i);
    var upto := Visited(rules, surface, i + 1);
    assert upto == Visited(rules, surface, i) + newest;
    assert g in upto;
    VisitedGrows(rules, surface, i + 1, n);
  }

  /** Every derivation whatever its length is represented among the forms of a search that ends. */
  lemma DerivationsAreVisited(rules: seq<Rule>, surface: Text, trail: seq<nat>, texts: seq<Text>, n: nat)
    returns (g: Item)
    requires IsDerivation(rules, surface, trail, texts) && EndsAt(rules, surface, n)
    ensures g in Visited(rules, surface, n) && Represents(rules, g, trail, Last(texts))
  {
    g := GenerationCovers(rules, surface, trail, texts);
    if n <= |trail| {
      EndedStaysEnded(rules, surface, n, |trail|);
      assert false;
    }
    VisitedHolds(rules, surface, g, |trail|, n);
  }
}
