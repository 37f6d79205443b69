/** Which steps count: a derivation's proper steps told by its labels, and what that means for the answer
    (src/deconj/deconjugator.cpp). */
module DeconjLabels {
  import opened Basics
  import opened DeconjRules
  import opened DeconjSpec
  import opened DeconjExact
  import opened DeconjFilter
  import opened DeconjTermination

  // ---------------------------------------------------------------- counting

  /** A label that names a step of its own: it says something, and is not in parentheses. */
  predicate IsPlain(word: string) {
    |word| > 0 && word[0] != '('
  }

  /** The positions behind the first step with such a label. */
  function PlainSteps(labels: seq<string>): set<nat> {
    set i: nat | 0 < i < |labels| && IsPlain(labels[i])
  }

  lemma PlainStepsSnoc(labels: seq<string>, word: string)
    requires labels != []
    ensures |PlainSteps(labels + [word])| == |PlainSteps(labels)| + if IsPlain(word) then 1 else 0
  {
    hide IsPlain;
    assert PlainSteps(labels + [word]) == PlainSteps(labels) + if IsPlain(word) then {|labels|} else {};
  }

  /** The step count of a path is one for its first step and one for every plainly labelled one behind it. */
  lemma {:induction false} StepsArePlain(rules: seq<Rule>, trail: seq<nat>)
    requires trail != []
    ensures Steps(rules, trail) == 1 + |PlainSteps(Labels(rules, trail))|
    decreases |trail|
  {
    hide PlainSteps;
    if |trail| == 1 {
      OneLabel(Labels(rules, trail));
    } else {
      StepsArePlain(rules, Front(trail));
      LabelsSnoc(rules, Front(trail), Last(trail));
      PlainStepsSnoc(Labels(rules, Front(trail)), Label(rules, Last(trail)));
      assert trail == Front(trail) + [Last(trail)];
    }
  }

  lemma OneLabel(labels: seq<string>)
    requires |labels| <= 1
    ensures |PlainSteps(labels)| == 0
  {
    assert PlainSteps(labels) == {};
  }

  /** One more step: it counts exactly when its label is not empty and does not begin with a parenthesis. */
  lemma StepCounts(rules: seq<Rule>, trail: seq<nat>, k: nat)
    requires trail != [] && k < |rules|
    ensures var word := rules[k].detail;
      Steps(rules, trail + [k]) == Steps(rules, trail) + if word == "" || word[0] == '(' then 0 else 1
  {
    assert Front(trail + [k]) == trail;
  }

  // ---------------------------------------------------------------- the answer in terms of labels

  /** A derivation of a lemma and word class with the given labels. */
  ghost predicate DerivesWith(rules: seq<Rule>, surface: Text, trail: seq<nat>, lemma_: Text, tag: string,
                              labels: seq<string>)
  {
    && InRules(rules, trail) && Derives(rules, surface, trail, lemma_)
    && TagAt(rules, trail, |trail|) == tag && Labels(rules, trail) == labels
  }

  /** The twenty-four word classes a lemma can have. */
  const WORD_CLASSES: set<string> := {
    "adj-i", "adj-ix", "cop", "v1", "v1-s", "v4r", "v5aru", "v5b", "v5g", "v5k", "v5k-s", "v5m",
    "v5n", "v5r", "v5r-i", "v5s", "v5t", "v5u", "v5u-s", "vk", "vs-c", "vs-i", "vs-s", "vz"}

  /** No derivation of a lemma and word class has fewer plainly labelled steps than these labels. */
  ghost predicate FewestPlain(rules: seq<Rule>, surface: Text, lemma_: Text, tag: string, labels: seq<string>) {
    forall trail, others :: DerivesWith(rules, surface, trail, lemma_, tag, others) ==>
      |PlainSteps(labels)| <= |PlainSteps(others)|
  }

  /** A label list is answered for a lemma and word class exactly when a derivation has it and no derivation
      of them has fewer plainly labelled steps behind its first. */
  lemma AnswerByLabels(rules: seq<Rule>, surface: Text, n: nat, lemma_: Text, tag: string, labels: seq<string>)
    requires EndsAt(rules, surface, n)
    ensures (exists g :: g in Answer(rules, surface, n)
                         && g.text == lemma_ && g.tag == tag && Labels(rules, g.trail) == labels)
       <==> (&& tag in WORD_CLASSES && FewestPlain(rules, surface, lemma_, tag, labels)
             && exists trail :: DerivesWith(rules, surface, trail, lemma_, tag, labels))
  {
    hide Answer, Labels, Derives, PlainSteps, FewestPlain, DerivesWith;
    AnswerExact(rules, surface, n, lemma_, tag, labels);
    if best: seq<nat> :| IsBestDerivation(rules, surface, best, lemma_)
                         && TagAt(rules, best, |best|) == tag && Labels(rules, best) == labels {
      BestIsFewest(rules, surface, lemma_, tag, labels, best);
    }
    if trail :| DerivesWith(rules, surface, trail, lemma_, tag, labels) {
      if tag in WORD_CLASSES && FewestPlain(rules, surface, lemma_, tag, labels) {
        FewestIsBest(rules, surface, lemma_, tag, labels, trail);
      }
    }
  }

  lemma BestIsFewest(rules: seq<Rule>, surface: Text, lemma_: Text, tag: string, labels: seq<string>, best: seq<nat>)
    requires IsBestDerivation(rules, surface, best, lemma_)
    requires TagAt(rules, best, |best|) == tag && Labels(rules, best) == labels
    ensures tag in WORD_CLASSES && FewestPlain(rules, surface, lemma_, tag, labels)
    ensures DerivesWith(rules, surface, best, lemma_, tag, labels)
  {
    hide Labels, Derives, PlainSteps;
    forall trail, others | DerivesWith(rules, surface, trail, lemma_, tag, others)
      ensures |PlainSteps(labels)| <= |PlainSteps(others)|
    {
      StepsCompare(rules, best, trail, tag);
    }
  }

  lemma FewestIsBest(rules: seq<Rule>, surface: Text, lemma_: Text, tag: string, labels: seq<string>, trail: seq<nat>)
    requires tag in WORD_CLASSES && FewestPlain(rules, surface, lemma_, tag, labels)
    requires DerivesWith(rules, surface, trail, lemma_, tag, labels)
    ensures IsBestDerivation(rules, surface, trail, lemma_)
    ensures TagAt(rules, trail, |trail|) == tag && Labels(rules, trail) == labels
  {
    hide Labels, Derives, PlainSteps;
    forall other: seq<nat> | InRules(rules, other) && Derives(rules, surface, other, lemma_)
                             && TagAt(rules, other, |other|) == tag
      ensures Steps(rules, trail) <= Steps(rules, other)
    {
      assert DerivesWith(rules, surface, other, lemma_, tag, Labels(rules, other));
      StepsCompare(rules, trail, other, tag);
    }
  }

  lemma StepsCompare(rules: seq<Rule>, a: seq<nat>, b: seq<nat>, tag: string)
    requires InRules(rules, a) && InRules(rules, b) && tag != ""
    requires TagAt(rules, a, |a|) == tag && TagAt(rules, b, |b|) == tag
    ensures Steps(rules, a) <= Steps(rules, b)
       <==> |PlainSteps(Labels(rules, a))| <= |PlainSteps(Labels(rules, b))|
  {
    StepsArePlain(rules, a);
    StepsArePlain(rules, b);
  }

  /** Of two derivations of one lemma and word class, the one with more plainly labelled steps is not
      answered. */
  lemma LongerIsNotAnswered(rules: seq<Rule>, surface: Text, n: nat, lemma_: Text, tag: string, short: seq<nat>,
                            long: seq<nat>, shortLabels: seq<string>, longLabels: seq<string>)
    requires EndsAt(rules, surface, n)
    requires DerivesWith(rules, surface, short, lemma_, tag, shortLabels)
    requires DerivesWith(rules, surface, long, lemma_, tag, longLabels)
    requires |PlainSteps(shortLabels)| < |PlainSteps(longLabels)|
    ensures !exists g :: g in Answer(rules, surface, n)
                         && g.text == lemma_ && g.tag == tag && Labels(rules, g.trail) == longLabels
  {
    hide Answer, DerivesWith, PlainSteps, Labels;
    AnswerByLabels(rules, surface, n, lemma_, tag, longLabels);
  }

  function Shifted(k: nat, i: nat): nat {
    if k < i then k else k + 1
  }

  function AllShifted(s: set<nat>, i: nat): set<nat> {
    set k | k in s :: Shifted(k, i)
  }

  lemma {:induction false} SameSize(s: set<nat>, i: nat)
    ensures |AllShifted(s, i)| == |s|
    decreases |s|
  {
    if s != {} {
      var k :| k in s;
      SameSize(s - {k}, i);
      assert Shifted(k, i) !in AllShifted(s - {k}, i);
      assert AllShifted(s, i) == AllShifted(s - {k}, i) + {Shifted(k, i)};
    }
  }

  /** A step with a plain label anywhere behind the first adds one to the count; one without a label or with
      one in parentheses adds nothing. */
  lemma OneMoreLabel(labels: seq<string>, i: nat, word: string)
    requires 0 < i <= |labels|
    ensures |PlainSteps(labels[..i] + [word] + labels[i..])| ==
      |PlainSteps(labels)| + if word == "" || word[0] == '(' then 0 else 1
  {
    hide IsPlain;
    var more, moved := labels[..i] + [word] + labels[i..], AllShifted(PlainSteps(labels), i);
    SameSize(PlainSteps(labels), i);
    forall k: nat
      ensures k in PlainSteps(more) <==> k in moved || (k == i && IsPlain(word))
    {
      if k in PlainSteps(more) && k != i {
        var j := if k < i then k else k - 1;
        assert labels[j] == more[k] && j in PlainSteps(labels) && k == Shifted(j, i);
      }
      if j :| j in PlainSteps(labels) && k == Shifted(j, i) {
        assert more[k] == labels[j];
      }
    }
    assert PlainSteps(more) == moved + if IsPlain(word) then {i} else {};
    PlainMeans(word);
  }

  lemma PlainMeans(word: string)
    ensures IsPlain(word) <==> !(word == "" || word[0] == '(')
  {
  }

  // ---------------------------------------------------------------- the cap

  /** No visited form has a ninth step that counts. */
  lemma AtMostEight(rules: seq<Rule>, surface: Text, n: nat, item: Item)
    requires item in Visited(rules, surface, n) && item.trail != []
    ensures |PlainSteps(Labels(rules, item.trail))| <= 7
  {
    hide Visited, PlainSteps, Labels;
    VisitedAreBounded(rules, surface, n, item, 0);
    StepsArePlain(rules, item.trail);
  }

  /** One rule that takes a character off, under one word class and with a plain label. */
  function Shortening(tag: string): seq<Rule> {
    [Rule(Standard, [], [97], tag, tag, "step")]
  }

  function Tail(count: nat): Text {
    [98] + seq(count, i => 97)
  }

  function Zeros(count: nat): seq<nat> {
    seq(count, i => 0)
  }

  lemma {:induction false} ShorteningSteps(tag: string, count: nat)
    ensures Steps(Shortening(tag), Zeros(count)) == count
  {
    if count > 1 {
      ShorteningSteps(tag, count - 1);
      assert Front(Zeros(count)) == Zeros(count - 1);
    }
  }

  /** Up to eight steps that count are a derivation. */
  lemma ShorteningDerives(tag: string, total: nat, count: nat)
    requires count <= total && count <= 8
    ensures Derives(Shortening(tag), Tail(total), Zeros(count), Tail(total - count))
  {
    var rules, trail := Shortening(tag), Zeros(count);
    var texts := seq(count + 1, i requires 0 <= i <= count => Tail(total - i));
    forall i | 0 <= i < count
      ensures IsStep(rules, trail, i, texts[i], texts[i + 1])
    {
      assert texts[i] == Tail(total - i - 1) + [97] && texts[i + 1] == Tail(total - i - 1) + [];
      ShorteningSteps(tag, i);
      assert trail[..i] == Zeros(i);
    }
    assert IsDerivation(rules, Tail(total), trail, texts);
  }

  /** Eight steps that count are answered, whichever the word class, and nine never are. */
  lemma EightStepsAnswered(tag: string)
    ensures EndsAt(Shortening(tag), Tail(8), 9) && EndsAt(Shortening(tag), Tail(9), 9)
    ensures (exists g :: g in Answer(Shortening(tag), Tail(8), 9) && g.text == Tail(0) && g.tag == tag)
       <==> tag in WORD_CLASSES
    ensures !exists g :: g in Answer(Shortening(tag), Tail(9), 9) && g.text == Tail(0)
  {
    hide Answer, Visited, Generation, Derives, Steps;
    var rules := Shortening(tag);
    ShorteningEnds(tag, Tail(8));
    ShorteningEnds(tag, Tail(9));
    ShorteningDerives(tag, 8, 8);
    var labels := Labels(rules, Zeros(8));
    assert DerivesWith(rules, Tail(8), Zeros(8), Tail(0), tag, labels);
    AnswerByLabels(rules, Tail(8), 9, Tail(0), tag, labels);
    forall trail, others | DerivesWith(rules, Tail(8), trail, Tail(0), tag, others)
      ensures others == labels
    {
      OneLengthEach(tag, 8, trail, Tail(0));
    }
    forall g | g in Answer(rules, Tail(8), 9) && g.text == Tail(0) && g.tag == tag
      ensures tag in WORD_CLASSES
    {
      AnsweredIsBest(rules, Tail(8), 9, g);
    }
    forall g | g in Answer(rules, Tail(9), 9)
      ensures g.text != Tail(0)
    {
      AnsweredIsBest(rules, Tail(9), 9, g);
      if g.text == Tail(0) {
        OneLengthEach(tag, 9, g.trail, Tail(0));
        ShorteningSteps(tag, 9);
        AnswerMembers(rules, Tail(9), 9, g);
        VisitedAreBounded(rules, Tail(9), 9, g, 0);
      }
    }
  }

  lemma ShorteningEnds(tag: string, surface: Text)
    ensures EndsAt(Shortening(tag), surface, 9)
  {
    hide EndsAt;
    forall walk: seq<nat> | walk != []
      ensures !ImproperWalk(Shortening(tag), walk)
    {
      if walk[0] == 0 {
        assert IsProper(Shortening(tag)[walk[0]].detail);
      }
    }
    SearchEnds(Shortening(tag), surface, 0);
  }

  /** Every derivation under the one rule is as long as the characters it took off. */
  lemma {:induction false} OneLengthEach(tag: string, total: nat, trail: seq<nat>, lemma_: Text)
    requires InRules(Shortening(tag), trail) && Derives(Shortening(tag), Tail(total), trail, lemma_)
    ensures trail == Zeros(|trail|) && |lemma_| + |trail| == total + 1
  {
    var texts: seq<Text> :| IsDerivation(Shortening(tag), Tail(total), trail, texts) && Last(texts) == lemma_;
    var i := 0;
    while i < |trail|
      invariant i <= |trail| && |texts[i]| + i == total + 1
    {
      assert IsStep(Shortening(tag), trail, i, texts[i], texts[i + 1]);
      i := i + 1;
    }
    forall k | 0 <= k < |trail|
      ensures trail[k] == 0
    {
      assert trail[k] < |Shortening(tag)|;
    }
  }
}
