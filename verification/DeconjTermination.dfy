/** When the generation loop ends: tags and labels guarantee it exactly when the improper rules form no
    tag cycle. */
module DeconjTermination {
  import opened Basics
  import opened DeconjRules
  import opened DeconjSpec
  import opened DeconjExact

  ghost predicate TagsChain(rules: seq<Rule>, trail: seq<nat>) {
    InRules(rules, trail)
    && forall i :: 0 < i < |trail| ==> rules[trail[i]].conTag == rules[trail[i - 1]].decTag
  }

  /** A walk along improper rules in the conTag to decTag graph. */
  ghost predicate ImproperWalk(rules: seq<Rule>, walk: seq<nat>) {
    TagsChain(rules, walk) && forall i :: 0 <= i < |walk| ==> !IsProper(rules[walk[i]].detail)
  }

  ghost predicate ImproperCycle(rules: seq<Rule>, walk: seq<nat>) {
    walk != [] && ImproperWalk(rules, walk) && rules[walk[0]].conTag == rules[Last(walk)].decTag
  }

  ghost predicate NoImproperCycle(rules: seq<Rule>) {
    forall walk :: !ImproperCycle(rules, walk)
  }

  /** No improper walk is longer than r: the least such r is the rank of the tag graph. */
  ghost predicate RankAtMost(rules: seq<Rule>, r: nat) {
    forall walk :: ImproperWalk(rules, walk) ==> |walk| <= r
  }

  /** The improper steps a path ends on, not counting its root. */
  function ImproperTail(rules: seq<Rule>, trail: seq<nat>): nat {
    if |trail| <= 1 || IsProper(Label(rules, Last(trail))) then 0
    else ImproperTail(rules, Front(trail)) + 1
  }

  lemma {:induction false} ImproperTailSteps(rules: seq<Rule>, trail: seq<nat>)
    ensures trail != [] ==> ImproperTail(rules, trail) < |trail|
    ensures forall i :: |trail| - ImproperTail(rules, trail) <= i < |trail| ==> !IsProper(Label(rules, trail[i]))
  {
    if |trail| > 1 && !IsProper(Label(rules, Last(trail))) {
      ImproperTailSteps(rules, Front(trail));
      assert forall i :: 0 <= i < |trail| - 1 ==> Front(trail)[i] == trail[i];
    }
  }

  /** A sequence of more than n positions below n repeats one of them. */
  lemma {:induction false} Pigeonhole(s: seq<nat>, n: nat) returns (i: nat, j: nat)
    requires |s| > n && forall k :: 0 <= k < |s| ==> s[k] < n
    ensures i < j < |s| && s[i] == s[j]
    decreases n
  {
    var last := |s| - 1;
    if k :| 0 <= k < last && s[k] == s[last] {
      return k, last;
    }
    // s[last] is unique: rename the top value to it and drop the last entry.
    var t := seq(last, k requires 0 <= k < last => if s[k] == n - 1 then s[last] else s[k]);
    i, j := Pigeonhole(t, n - 1);
  }

  /** Without a cycle no improper walk is longer than the rule list. */
  lemma RankIsBounded(rules: seq<Rule>)
    requires NoImproperCycle(rules)
    ensures RankAtMost(rules, |rules|)
  {
    forall walk | ImproperWalk(rules, walk)
      ensures |walk| <= |rules|
    {
      if |walk| > |rules| {
        var i, j := Pigeonhole(walk, |rules|);
        assert Last(walk[i..j]) == walk[j - 1];
        assert ImproperCycle(rules, walk[i..j]);
      }
    }
  }

  lemma ImproperTailIsWalk(rules: seq<Rule>, trail: seq<nat>)
    requires TagsChain(rules, trail)
    ensures ImproperTail(rules, trail) <= |trail|
    ensures ImproperWalk(rules, trail[|trail| - ImproperTail(rules, trail)..])
  {
    hide ImproperTail, IsProper;
    ImproperTailSteps(rules, trail);
    EmptyTail(rules);
    var start := |trail| - ImproperTail(rules, trail);
    var tail := trail[start..];
    forall i | 0 <= i < |tail|
      ensures tail[i] == trail[start + i] && tail[i] < |rules| && !IsProper(rules[tail[i]].detail)
    {
    }
  }

  lemma EmptyTail(rules: seq<Rule>)
    ensures ImproperTail(rules, []) == 0
  {
  }

  lemma ImproperTailBound(rules: seq<Rule>, trail: seq<nat>, r: nat)
    requires RankAtMost(rules, r) && TagsChain(rules, trail)
    ensures ImproperTail(rules, trail) <= r
  {
    hide ImproperTail, ImproperWalk, TagsChain;
    ImproperTailIsWalk(rules, trail);
  }

  /** The longest path of the given number of proper steps with runs of m improper ones. */
  function Cap(m: nat, steps: nat): nat {
    steps * (m + 1)
  }

  lemma CapGrows(m: nat, steps: nat)
    ensures Cap(m, 0) == 0
    ensures Cap(m, steps + 1) == Cap(m, steps) + m + 1
  {
  }

  lemma {:induction false} CapMonotone(m: nat, a: nat, b: nat)
    requires a <= b
    ensures Cap(m, a) <= Cap(m, b)
    decreases b
  {
    if a < b {
      CapMonotone(m, a, b - 1);
      CapGrows(m, b - 1);
    }
  }

  lemma FrontChains(rules: seq<Rule>, trail: seq<nat>)
    requires TagsChain(rules, trail) && trail != []
    ensures TagsChain(rules, Front(trail))
  {
  }

  /** The proper steps of a path times the runs of improper steps between them bound its length. */
  lemma {:induction false} TrailLength(rules: seq<Rule>, trail: seq<nat>, r: nat)
    requires RankAtMost(rules, r) && TagsChain(rules, trail) && trail != []
    ensures Steps(rules, trail) > 0
    ensures |trail| <= Cap(r, Steps(rules, trail) - 1) + ImproperTail(rules, trail) + 1
    decreases |trail|
  {
    hide Cap, RankAtMost, TagsChain, IsProper;
    if |trail| == 1 {
      CapGrows(r, 0);
    } else {
      FrontChains(rules, trail);
      TrailLength(rules, Front(trail), r);
      ImproperTailBound(rules, Front(trail), r);
      CapGrows(r, Steps(rules, Front(trail)) - 1);
    }
  }

  lemma PathFacts(rules: seq<Rule>, surface: Text, item: Item)
    requires IsPath(rules, surface, item)
    ensures TagsChain(rules, item.trail)
    ensures Steps(rules, item.trail) <= MAX_PROPER_STEPS
  {
    var trail := item.trail;
    var texts: seq<Text> :| IsDerivation(rules, surface, trail, texts) && Last(texts) == item.text;
    forall i | 0 < i < |trail|
      ensures rules[trail[i]].conTag == rules[trail[i - 1]].decTag
    {
      assert IsStep(rules, trail, i, texts[i], texts[i + 1]);
    }
    if trail != [] {
      var n := |trail| - 1;
      assert IsStep(rules, trail, n, texts[n], texts[n + 1]);
      assert trail[..n] == Front(trail);
    }
  }

  /** Every visited form has at most eight proper steps, and its path is at most eight runs of one step
      and as many improper ones as the longest improper walk has. */
  lemma VisitedAreBounded(rules: seq<Rule>, surface: Text, n: nat, item: Item, r: nat)
    requires item in Visited(rules, surface, n)
    ensures Steps(rules, item.trail) <= MAX_PROPER_STEPS
    ensures RankAtMost(rules, r) ==> |item.trail| <= MAX_PROPER_STEPS * (r + 1)
  {
    hide Visited, IsDerivation;
    VisitedAreDerivations(rules, surface, n);
    PathFacts(rules, surface, item);
    if RankAtMost(rules, r) && item.trail != [] {
      TrailLength(rules, item.trail, r);
      ImproperTailBound(rules, item.trail, r);
      CapGrows(r, Steps(rules, item.trail) - 1);
      CapMonotone(r, Steps(rules, item.trail), MAX_PROPER_STEPS);
    }
  }

  /** The search ends on every text, and after how many generations, when improper walks are bounded. */
  lemma SearchEnds(rules: seq<Rule>, surface: Text, r: nat)
    requires RankAtMost(rules, r)
    ensures EndsAt(rules, surface, MAX_PROPER_STEPS * (r + 1) + 1)
  {
    hide Generation, Visited;
    var n := MAX_PROPER_STEPS * (r + 1) + 1;
    if Generation(rules, surface, n) != [] {
      var g := Generation(rules, surface, n)[0];
      GenerationTrails(rules, surface, n);
      VisitedHolds(rules, surface, g, n, n + 1);
      VisitedAreBounded(rules, surface, n + 1, g, r);
      assert false;
    }
  }

  // ---------------------------------------------------------------- rule sets that loop

  /** The same conTag, decTag and label columns: everything but the endings and the kinds. */
  ghost predicate SameTags(a: seq<Rule>, b: seq<Rule>) {
    |a| == |b| && forall i :: 0 <= i < |a| ==>
      a[i].decTag == b[i].decTag && a[i].conTag == b[i].conTag && a[i].detail == b[i].detail
  }

  const LOOP_TEXT: Text := [97]

  /** The rule set with every rule rewriting one ending to itself. */
  function Looping(rules: seq<Rule>): seq<Rule> {
    seq(|rules|, i requires 0 <= i < |rules| =>
      Rule(Standard, LOOP_TEXT, LOOP_TEXT, rules[i].decTag, rules[i].conTag, rules[i].detail))
  }

  /** Where a walk of m steps is after i steps round and round. */
  function Turn(i: nat, m: nat): (t: nat)
    requires m > 0
    ensures t < m
  {
    if i == 0 || Turn(i - 1, m) == m - 1 then 0 else Turn(i - 1, m) + 1
  }

  /** A closed walk, followed for n steps. */
  function Around(walk: seq<nat>, n: nat): seq<nat>
    requires walk != []
  {
    seq(n, i requires 0 <= i < n => walk[Turn(i, |walk|)])
  }

  lemma AroundIsWalk(rules: seq<Rule>, walk: seq<nat>, n: nat)
    requires ImproperCycle(rules, walk)
    ensures ImproperWalk(rules, Around(walk, n))
  {
  }

  lemma {:induction false} ImproperSteps(rules: seq<Rule>, walk: seq<nat>)
    requires ImproperWalk(rules, walk)
    ensures Steps(rules, walk) <= 1
    decreases |walk|
  {
    if |walk| > 1 {
      ImproperSteps(rules, Front(walk));
    }
  }

  /** Around an improper cycle the looping rules derive the text from itself in any number of steps. */
  lemma LoopDerives(rules: seq<Rule>, walk: seq<nat>, n: nat)
    requires ImproperCycle(rules, walk)
    ensures IsDerivation(Looping(rules), LOOP_TEXT, Around(walk, n), seq(n + 1, i => LOOP_TEXT))
  {
    var loop, trail := Looping(rules), Around(walk, n);
    AroundIsWalk(rules, walk, n);
    forall i | 0 <= i < n
      ensures IsStep(loop, trail, i, LOOP_TEXT, LOOP_TEXT)
    {
      assert LOOP_TEXT == [] + loop[trail[i]].conEnd && LOOP_TEXT == [] + loop[trail[i]].decEnd;
      assert ImproperWalk(loop, trail[..i]);
      ImproperSteps(loop, trail[..i]);
    }
  }

  lemma CycleNeverEnds(rules: seq<Rule>, walk: seq<nat>, n: nat)
    requires ImproperCycle(rules, walk)
    ensures !EndsAt(Looping(rules), LOOP_TEXT, n)
  {
    hide Generation;
    LoopDerives(rules, walk, n);
    var g := GenerationCovers(Looping(rules), LOOP_TEXT, Around(walk, n), seq(n + 1, i => LOOP_TEXT));
  }

  ghost predicate Ends(rules: seq<Rule>, surface: Text) {
    exists n :: EndsAt(rules, surface, n)
  }

  /** The absence of an improper tag cycle is exactly what tags and labels can guarantee: every rule set
      with these tags and labels ends on every text if and only if there is none. */
  lemma EndsExactly(rules: seq<Rule>)
    ensures NoImproperCycle(rules) <==> forall other, surface :: SameTags(rules, other) ==> Ends(other, surface)
  {
    hide EndsAt;
    if NoImproperCycle(rules) {
      RankIsBounded(rules);
      forall other, surface | SameTags(rules, other)
        ensures Ends(other, surface)
      {
        forall walk | ImproperWalk(other, walk)
          ensures |walk| <= |rules|
        {
          assert ImproperWalk(rules, walk);
        }
        SearchEnds(other, surface, |rules|);
      }
    } else {
      var walk :| ImproperCycle(rules, walk);
      assert SameTags(rules, Looping(rules));
      forall n: nat
        ensures !EndsAt(Looping(rules), LOOP_TEXT, n)
      {
        CycleNeverEnds(rules, walk, n);
      }
      assert !Ends(Looping(rules), LOOP_TEXT);
    }
  }

  const LOOPING_RULES: seq<Rule> := [Rule(Standard, [97], [97], "t", "t", "")]

  /** The smallest case: a rule that rewrites an ending to itself under its own tag with an empty label
      passes the loader's checks, yet every generation of the search holds a form. */
  lemma LoopingRulesNeverEnd()
    ensures forall n :: !EndsAt(LOOPING_RULES, [97], n)
  {
    hide EndsAt;
    assert Looping(LOOPING_RULES) == LOOPING_RULES;
    assert ImproperCycle(LOOPING_RULES, [0]);
    forall n: nat
      ensures !EndsAt(LOOPING_RULES, [97], n)
    {
      CycleNeverEnds(LOOPING_RULES, [0], n);
    }
  }
}
