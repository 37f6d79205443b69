/** The fewest-steps filter keeps exactly the best paths, and so the answer of a search is exactly the
    derivations with the fewest proper steps for their lemma and word class. */
module DeconjFilter {
  import opened Basics
  import opened DeconjRules
  import opened DeconjSpec
  import opened DeconjExact

  /** No form in all reaches the same lemma and word class in fewer steps. */
  ghost predicate Fewest(rules: seq<Rule>, all: seq<Item>, x: Item) {
    IsTerminal(x.tag) && forall g :: g in all && SameKey(g, x) ==> Steps(rules, x.trail) <= Steps(rules, g.trail)
  }

  /** The forms of part that are terminal and best within all. */
  ghost function Survivors(rules: seq<Rule>, part: seq<Item>, all: seq<Item>): seq<Item> {
    if part == [] then []
    else Survivors(rules, Front(part), all) + (if Fewest(rules, all, Last(part)) then [Last(part)] else [])
  }

  predicate Worse(rules: seq<Rule>, g: Item, x: Item) {
    SameKey(g, x) && Steps(rules, g.trail) > Steps(rules, x.trail)
  }

  ghost function NotWorse(rules: seq<Rule>, kept: seq<Item>, x: Item): seq<Item> {
    if kept == [] then []
    else NotWorse(rules, Front(kept), x) + (if Worse(rules, Last(kept), x) then [] else [Last(kept)])
  }

  /** All accepted entries of one lemma and word class have the same step count. */
  ghost predicate Uniform(rules: seq<Rule>, kept: seq<Item>) {
    forall a, b :: a in kept && b in kept && SameKey(a, b) ==> Steps(rules, a.trail) == Steps(rules, b.trail)
  }

  lemma SnocCount<T>(s: seq<T>, x: T)
    requires s != []
    ensures multiset(s)[x] == multiset(Front(s))[x] + (if Last(s) == x then 1 else 0)
  {
    assert s == Front(s) + [Last(s)];
  }

  lemma {:induction false} SurvivorsCount(rules: seq<Rule>, part: seq<Item>, all: seq<Item>, x: Item)
    ensures multiset(Survivors(rules, part, all))[x] == if Fewest(rules, all, x) then multiset(part)[x] else 0
  {
    if part != [] {
      SurvivorsCount(rules, Front(part), all, x);
      SnocCount(part, x);
    }
  }

  lemma {:induction false} NotWorseCount(rules: seq<Rule>, kept: seq<Item>, x: Item, g: Item)
    ensures multiset(NotWorse(rules, kept, x))[g] == if Worse(rules, g, x) then 0 else multiset(kept)[g]
  {
    if kept != [] {
      NotWorseCount(rules, Front(kept), x, g);
      SnocCount(kept, g);
    }
  }

  lemma SwapRemoveCount<T>(s: seq<T>, i: nat, x: T)
    requires i < |s|
    ensures multiset(SwapRemove(s, i))[x] == multiset(s)[x] - (if s[i] == x then 1 else 0)
  {
    SnocCount(s, x);
    if i < |s| - 1 {
      var t := s[i := Last(s)];
      assert multiset(t) == multiset(s) - multiset{s[i]} + multiset{Last(s)};
      SnocCount(t, x);
    }
  }

  lemma SwapRemoveDropsWorse(rules: seq<Rule>, kept: seq<Item>, x: Item, i: nat)
    requires i < |kept| && Worse(rules, kept[i], x)
    requires forall j :: i < j < |kept| ==> !Worse(rules, kept[j], x)
    ensures forall g :: g in SwapRemove(kept, i) ==> g in kept
    ensures forall j :: i <= j < |kept| - 1 ==> !Worse(rules, SwapRemove(kept, i)[j], x)
    ensures multiset(NotWorse(rules, SwapRemove(kept, i), x)) == multiset(NotWorse(rules, kept, x))
  {
    forall g | g in SwapRemove(kept, i)
      ensures g in kept
    {
      SwapRemoveCount(kept, i, g);
      assert multiset(SwapRemove(kept, i))[g] > 0;
      assert multiset(kept)[g] > 0;
    }
    forall g
      ensures multiset(NotWorse(rules, SwapRemove(kept, i), x))[g] == multiset(NotWorse(rules, kept, x))[g]
    {
      NotWorseCount(rules, SwapRemove(kept, i), x, g);
      NotWorseCount(rules, kept, x, g);
      SwapRemoveCount(kept, i, g);
    }
  }

  lemma {:induction false} NoneWorse(rules: seq<Rule>, kept: seq<Item>, x: Item)
    requires forall i :: 0 <= i < |kept| ==> !Worse(rules, kept[i], x)
    ensures NotWorse(rules, kept, x) == kept
  {
    hide Worse;
    if kept != [] {
      assert kept == Front(kept) + [Last(kept)];
      NoneWorse(rules, Front(kept), x);
    }
  }

  // ---------------------------------------------------------------- the scan

  /** A strictly better entry stops the scan before anything was deleted. */
  lemma {:induction false} ScanBeaten(rules: seq<Rule>, kept: seq<Item>, x: Item, n: nat, i: nat)
    requires Uniform(rules, kept) && i < n <= |kept|
    requires SameKey(kept[i], x) && Steps(rules, kept[i].trail) < Steps(rules, x.trail)
    ensures Scan(rules, kept, x, n) == ScanResult(kept, false)
    decreases n
  {
    assert kept[n - 1] in kept && kept[i] in kept;
    if !SameKey(kept[n - 1], x) {
      ScanBeaten(rules, kept, x, n - 1, i);
    }
  }

  /** Without a better entry the scan deletes every strictly worse one: the swapped-in entries were
      looked at before. */
  lemma {:induction false} ScanUnbeaten(rules: seq<Rule>, kept: seq<Item>, x: Item, n: nat)
    requires n <= |kept|
    requires forall g :: g in kept && SameKey(g, x) ==> Steps(rules, g.trail) >= Steps(rules, x.trail)
    requires forall i :: n <= i < |kept| ==> !Worse(rules, kept[i], x)
    ensures Scan(rules, kept, x, n).add
    ensures multiset(Scan(rules, kept, x, n).kept) == multiset(NotWorse(rules, kept, x))
    decreases n
  {
    hide Steps;
    hide NotWorse;
    if n == 0 {
      NoneWorse(rules, kept, x);
    } else if Worse(rules, kept[n - 1], x) {
      var shorter := SwapRemove(kept, n - 1);
      SwapRemoveDropsWorse(rules, kept, x, n - 1);
      ScanUnbeaten(rules, shorter, x, n - 1);
    } else {
      assert kept[n - 1] in kept;
      ScanUnbeaten(rules, kept, x, n - 1);
    }
  }

  // ---------------------------------------------------------------- all visited forms

  /** Whatever a form is beaten by, a best form beats it. */
  lemma {:induction false} BestExists(rules: seq<Rule>, all: seq<Item>, g: Item) returns (best: Item)
    requires g in all && IsTerminal(g.tag)
    ensures best in all && SameKey(best, g) && Steps(rules, best.trail) <= Steps(rules, g.trail)
    ensures Fewest(rules, all, best)
    decreases Steps(rules, g.trail)
  {
    if Fewest(rules, all, g) {
      best := g;
    } else {
      var better :| better in all && SameKey(better, g) && Steps(rules, better.trail) < Steps(rules, g.trail);
      best := BestExists(rules, all, better);
    }
  }

  lemma SurvivorsUniform(rules: seq<Rule>, all: seq<Item>, kept: seq<Item>)
    requires multiset(kept) == multiset(Survivors(rules, all, all))
    ensures Uniform(rules, kept)
    ensures forall g :: g in kept <==> g in all && Fewest(rules, all, g)
  {
    forall g
      ensures g in kept <==> g in all && Fewest(rules, all, g)
    {
      SurvivorsCount(rules, all, all, g);
      assert g in kept <==> multiset(kept)[g] > 0;
      assert g in all <==> multiset(all)[g] > 0;
    }
  }

  /** One more visited form: the accept step turns the best of the earlier forms into the best of all. */
  lemma AcceptKeepsBest(rules: seq<Rule>, earlier: seq<Item>, kept: seq<Item>, x: Item)
    requires multiset(kept) == multiset(Survivors(rules, earlier, earlier))
    ensures multiset(Accept(rules, kept, x)) == multiset(Survivors(rules, earlier + [x], earlier + [x]))
  {
    var all := earlier + [x];
    SurvivorsUniform(rules, earlier, kept);
    forall g
      ensures multiset(Accept(rules, kept, x))[g] == multiset(Survivors(rules, all, all))[g]
    {
      SurvivorsCount(rules, all, all, g);
      SurvivorsCount(rules, earlier, earlier, g);
      assert multiset(all)[g] == multiset(earlier)[g] + (if x == g then 1 else 0);
      AcceptCount(rules, earlier, kept, x, g);
    }
  }

  lemma FewestPush(rules: seq<Rule>, earlier: seq<Item>, x: Item, g: Item)
    ensures Fewest(rules, earlier + [x], g) <==> Fewest(rules, earlier, g) && !(SameKey(x, g) && Worse(rules, g, x))
  {
    if Fewest(rules, earlier + [x], g) {
      forall h | h in earlier && SameKey(h, g)
        ensures Steps(rules, g.trail) <= Steps(rules, h.trail)
      {
        assert h in earlier + [x];
      }
      assert x in earlier + [x];
    }
  }

  lemma AcceptCount(rules: seq<Rule>, earlier: seq<Item>, kept: seq<Item>, x: Item, g: Item)
    requires Uniform(rules, kept)
    requires forall h :: h in kept <==> h in earlier && Fewest(rules, earlier, h)
    requires multiset(kept)[g] == if Fewest(rules, earlier, g) then multiset(earlier)[g] else 0
    ensures multiset(Accept(rules, kept, x))[g] ==
      if Fewest(rules, earlier + [x], g) then multiset(earlier)[g] + (if x == g then 1 else 0) else 0
  {
    FewestPush(rules, earlier, x, g);
    if !IsTerminal(x.tag) {
    } else if h :| h in kept && SameKey(h, x) && Steps(rules, h.trail) < Steps(rules, x.trail) {
      var i :| 0 <= i < |kept| && kept[i] == h;
      ScanBeaten(rules, kept, x, |kept|, i);
      if SameKey(g, x) && Fewest(rules, earlier, g) {
        assert SameKey(h, g);
      }
      assert !Fewest(rules, earlier, x);
    } else {
      ScanUnbeaten(rules, kept, x, |kept|);
      NotWorseCount(rules, kept, x, g);
      forall h | h in earlier && SameKey(h, x)
        ensures Steps(rules, x.trail) <= Steps(rules, h.trail)
      {
        var best := BestExists(rules, earlier, h);
      }
    }
  }

  /** After any visited forms, the accepted forms are, with multiplicity, the terminal forms whose step
      count is least for their text and tag. */
  lemma {:induction false} AcceptedAreBest(rules: seq<Rule>, visited: seq<Item>)
    ensures multiset(AcceptAll(rules, visited)) == multiset(Survivors(rules, visited, visited))
  {
    hide Accept;
    hide Fewest;
    if visited != [] {
      AcceptedAreBest(rules, Front(visited));
      AcceptKeepsBest(rules, Front(visited), AcceptAll(rules, Front(visited)), Last(visited));
      assert Front(visited) + [Last(visited)] == visited;
    }
  }

  // ---------------------------------------------------------------- the answer

  /** A derivation that ends on a terminal word class with the fewest proper steps for its lemma and
      word class. */
  ghost predicate IsBestDerivation(rules: seq<Rule>, surface: Text, trail: seq<nat>, lemma_: Text) {
    && InRules(rules, trail)
    && Derives(rules, surface, trail, lemma_)
    && IsTerminal(TagAt(rules, trail, |trail|))
    && forall other: seq<nat> :: InRules(rules, other) && Derives(rules, surface, other, lemma_)
                                 && TagAt(rules, other, |other|) == TagAt(rules, trail, |trail|)
                                 ==> Steps(rules, trail) <= Steps(rules, other)
  }

  lemma AnswerMembers(rules: seq<Rule>, surface: Text, n: nat, g: Item)
    ensures g in Answer(rules, surface, n) <==>
      g in Visited(rules, surface, n) && Fewest(rules, Visited(rules, surface, n), g)
  {
    AcceptedAreBest(rules, Visited(rules, surface, n));
    SurvivorsUniform(rules, Visited(rules, surface, n), Answer(rules, surface, n));
  }

  /** Every answered form is a derivation with the fewest steps for its lemma and word class. */
  lemma AnsweredIsBest(rules: seq<Rule>, surface: Text, n: nat, g: Item)
    requires EndsAt(rules, surface, n) && g in Answer(rules, surface, n)
    ensures IsBestDerivation(rules, surface, g.trail, g.text)
    ensures g.tag == TagAt(rules, g.trail, |g.trail|)
  {
    AnswerMembers(rules, surface, n, g);
    VisitedAreDerivations(rules, surface, n);
    forall other: seq<nat> | InRules(rules, other) && Derives(rules, surface, other, g.text)
                             && TagAt(rules, other, |other|) == g.tag
      ensures Steps(rules, g.trail) <= Steps(rules, other)
    {
      var texts: seq<Text> :| IsDerivation(rules, surface, other, texts) && Last(texts) == g.text;
      var h := DerivationsAreVisited(rules, surface, other, texts, n);
      assert SameKey(h, g);
      LabelsFixSteps(rules, h.trail, other);
    }
  }

  /** Every derivation with the fewest steps is answered, by a form with its lemma, tag and labels. */
  lemma BestIsAnswered(rules: seq<Rule>, surface: Text, n: nat, trail: seq<nat>, lemma_: Text) returns (g: Item)
    requires EndsAt(rules, surface, n) && IsBestDerivation(rules, surface, trail, lemma_)
    ensures g in Answer(rules, surface, n) && Represents(rules, g, trail, lemma_)
  {
    var texts: seq<Text> :| IsDerivation(rules, surface, trail, texts) && Last(texts) == lemma_;
    g := DerivationsAreVisited(rules, surface, trail, texts, n);
    LabelsFixSteps(rules, g.trail, trail);
    VisitedAreDerivations(rules, surface, n);
    var visited := Visited(rules, surface, n);
    forall h | h in visited && SameKey(h, g)
      ensures Steps(rules, g.trail) <= Steps(rules, h.trail)
    {
      assert IsPath(rules, surface, h);
    }
    AnswerMembers(rules, surface, n, g);
  }

  /** The search is exact: a lemma, tag and label list is answered if and only if some derivation of
      the rule set with the fewest proper steps for that lemma and word class has them. */
  lemma AnswerExact(rules: seq<Rule>, surface: Text, n: nat, lemma_: Text, tag: string, labels: seq<string>)
    requires EndsAt(rules, surface, n)
    ensures (exists g :: g in Answer(rules, surface, n)
                         && g.text == lemma_ && g.tag == tag && Labels(rules, g.trail) == labels)
       <==> (exists trail: seq<nat> :: IsBestDerivation(rules, surface, trail, lemma_)
                         && TagAt(rules, trail, |trail|) == tag && Labels(rules, trail) == labels)
  {
    if g :| g in Answer(rules, surface, n) && g.text == lemma_ && g.tag == tag && Labels(rules, g.trail) == labels {
      AnsweredIsBest(rules, surface, n, g);
    }
    if trail: seq<nat> :| IsBestDerivation(rules, surface, trail, lemma_)
                          && TagAt(rules, trail, |trail|) == tag && Labels(rules, trail) == labels {
      var g := BestIsAnswered(rules, surface, n, trail, lemma_);
      assert g in Answer(rules, surface, n);
    }
  }

  /** The rule chain of every answered form, undone from the lemma, rebuilds the surface text. */
  lemma AnswerUndoes(rules: seq<Rule>, surface: Text, n: nat, g: Item)
    requires EndsAt(rules, surface, n) && g in Answer(rules, surface, n)
    ensures InRules(rules, g.trail) && Undo(rules, g.trail, g.text) == Some(surface)
  {
    AnsweredIsBest(rules, surface, n, g);
    var texts: seq<Text> :| IsDerivation(rules, surface, g.trail, texts) && Last(texts) == g.text;
    UndoRebuildsSurface(rules, surface, g.trail, texts);
  }
}
