/** The expanded rule set of the deconjugator and the buckets that index it
    (src/deconj/deconjugator.cpp, src/deconj/deconjugator.h). */
module DeconjRules {

  import opened Basics

  datatype RuleType = Standard | Rewrite | OnlyFinal | NeverFinal

  /** One virtual rule: conEnd is consumed, decEnd is written in its place. */
  datatype Rule = Rule(kind: RuleType, decEnd: Text, conEnd: Text, decTag: string, conTag: string, detail: string)

  /** One rule object of the rule file, before virtual-rule expansion. */
  datatype RawRule = RawRule(kind: RuleType, decEnds: seq<Text>, conEnds: seq<Text>,
                             decTags: seq<string>, conTags: seq<string>, detail: string)

  /** The rules sharing one last conEnd character, and the same rules by conTag. */
  datatype RuleBucket = RuleBucket(allRules: seq<Rule>, rulesByConTag: map<string, seq<Rule>>)

  // ---------------------------------------------------------------- selecting rules

  /** What a bucket, or one of its per-tag lists, is expected to hold. */
  datatype Selector =
    | LastChar(c: CodeUnit)
    | LastCharTag(c: CodeUnit, tag: string)
    | EmptyEnd
    | EmptyEndTag(tag: string)

  predicate Selects(sel: Selector, rule: Rule) {
    match sel
    case LastChar(c) => rule.conEnd != [] && rule.conEnd[|rule.conEnd| - 1] == c
    case LastCharTag(c, tag) => rule.conEnd != [] && rule.conEnd[|rule.conEnd| - 1] == c && rule.conTag == tag
    case EmptyEnd => rule.conEnd == []
    case EmptyEndTag(tag) => rule.conEnd == [] && rule.conTag == tag
  }

  /** The selected rules, in file order. */
  ghost function SelectRules(rules: seq<Rule>, sel: Selector): seq<Rule> {
    if rules == [] then []
    else
      var n := |rules| - 1;
      SelectRules(rules[..n], sel) + (if Selects(sel, rules[n]) then [rules[n]] else [])
  }

  /** The positions of the selected rules, in file order. */
  ghost function SelectIndices(rules: seq<Rule>, sel: Selector): seq<nat> {
    if rules == [] then []
    else
      var n := |rules| - 1;
      SelectIndices(rules[..n], sel) + (if Selects(sel, rules[n]) then [n] else [])
  }

  /** SelectIndices lists exactly the selected positions, in increasing order, and SelectRules the
      rules standing there. */
  lemma {:induction false} SelectIndicesExact(rules: seq<Rule>, sel: Selector)
    ensures |SelectRules(rules, sel)| == |SelectIndices(rules, sel)|
    ensures forall i :: 0 <= i < |SelectIndices(rules, sel)| ==>
      var k := SelectIndices(rules, sel)[i];
      k < |rules| && Selects(sel, rules[k]) && SelectRules(rules, sel)[i] == rules[k]
    ensures forall i, j :: 0 <= i < j < |SelectIndices(rules, sel)| ==>
      SelectIndices(rules, sel)[i] < SelectIndices(rules, sel)[j]
    ensures forall k :: 0 <= k < |rules| && Selects(sel, rules[k]) ==> k in SelectIndices(rules, sel)
  {
    if rules != [] {
      var n := |rules| - 1;
      SelectIndicesExact(rules[..n], sel);
      assert forall k :: 0 <= k < n ==> rules[..n][k] == rules[k];
      var before := SelectIndices(rules[..n], sel);
      assert SelectIndices(rules, sel) == before + (if Selects(sel, rules[n]) then [n] else []);
      forall k | 0 <= k < |rules| && Selects(sel, rules[k])
        ensures k in SelectIndices(rules, sel)
      {
        if k < n {
          assert k in before;
        } else {
          assert SelectIndices(rules, sel)[|before|] == n;
        }
      }
    }
  }

  // ---------------------------------------------------------------- the loaded rule set

  ghost function LongestOf(rules: seq<Rule>): nat {
    if rules == [] then 0
    else
      var before := LongestOf(rules[..|rules| - 1]);
      var size := |rules[|rules| - 1].conEnd|;
      if size > before then size else before
  }

  /** LongestOf bounds every conEnd. */
  lemma {:induction false} LongestOfBounds(rules: seq<Rule>, k: nat)
    requires k < |rules|
    ensures |rules[k].conEnd| <= LongestOf(rules)
  {
    if k < |rules| - 1 {
      LongestOfBounds(rules[..|rules| - 1], k);
    }
  }

  ghost predicate IsCharBucket(bucket: RuleBucket, rules: seq<Rule>, c: CodeUnit) {
    && bucket.allRules == SelectRules(rules, LastChar(c))
    && forall tag :: (tag in bucket.rulesByConTag <==> SelectRules(rules, LastCharTag(c, tag)) != [])
                  && (tag in bucket.rulesByConTag ==>
                    bucket.rulesByConTag[tag] == SelectRules(rules, LastCharTag(c, tag)))
  }

  ghost predicate IsEmptyBucket(bucket: RuleBucket, rules: seq<Rule>) {
    && bucket.allRules == SelectRules(rules, EmptyEnd)
    && forall tag :: (tag in bucket.rulesByConTag <==> SelectRules(rules, EmptyEndTag(tag)) != [])
                  && (tag in bucket.rulesByConTag ==> bucket.rulesByConTag[tag] == SelectRules(rules, EmptyEndTag(tag)))
  }

  ghost predicate IsCharIndex(index: map<CodeUnit, RuleBucket>, rules: seq<Rule>) {
    forall c :: (c in index <==> SelectRules(rules, LastChar(c)) != [])
             && (c in index ==> IsCharBucket(index[c], rules, c))
  }

  /** The expanded rule set, immutable after Load. */
  datatype RuleSet = RuleSet(virtualRules: seq<Rule>,
                             byLastConEndChar: map<CodeUnit, RuleBucket>,
                             emptyConEnd: RuleBucket,
                             longestConEnd: nat)
  {
    ghost predicate Valid() {
      && IsCharIndex(byLastConEndChar, virtualRules)
      && IsEmptyBucket(emptyConEnd, virtualRules)
      && longestConEnd == LongestOf(virtualRules)
    }
  }

  // ---------------------------------------------------------------- loading

  /** The length checks a rule object has to pass. */
  predicate WellFormed(raw: RawRule) {
    && |raw.decEnds| == |raw.conEnds|
    && (|raw.decTags| == 1 || |raw.decTags| == |raw.conEnds|)
    && (|raw.conTags| == 1 || |raw.conTags| == |raw.conEnds|)
  }

  function ExpandAt(raw: RawRule, i: nat): Rule
    requires WellFormed(raw) && i < |raw.conEnds|
  {
    Rule(raw.kind, raw.decEnds[i], raw.conEnds[i],
         raw.decTags[if |raw.decTags| == 1 then 0 else i],
         raw.conTags[if |raw.conTags| == 1 then 0 else i],
         raw.detail)
  }

  /** The first n virtual rules of one rule object. */
  ghost function ExpandPrefix(raw: RawRule, n: nat): (r: seq<Rule>)
    requires WellFormed(raw) && n <= |raw.conEnds|
  {
    if n == 0 then [] else ExpandPrefix(raw, n - 1) + [ExpandAt(raw, n - 1)]
  }

  /** Every virtual rule, in file order. */
  ghost function ExpandAll(raws: seq<RawRule>): seq<Rule>
    requires forall raw :: raw in raws ==> WellFormed(raw)
  {
    if raws == [] then []
    else
      var last := raws[|raws| - 1];
      ExpandAll(raws[..|raws| - 1]) + ExpandPrefix(last, |last.conEnds|)
  }

  function Pushed(bucket: RuleBucket, rule: Rule): RuleBucket {
    var sofar := if rule.conTag in bucket.rulesByConTag then bucket.rulesByConTag[rule.conTag] else [];
    RuleBucket(bucket.allRules + [rule], bucket.rulesByConTag[rule.conTag := sofar + [rule]])
  }

  const EMPTY_BUCKET := RuleBucket([], map[])

  lemma SelectPush(rules: seq<Rule>, rule: Rule, sel: Selector)
    ensures SelectRules(rules + [rule], sel) == SelectRules(rules, sel) + (if Selects(sel, rule) then [rule] else [])
  {
    assert (rules + [rule])[..|rules|] == rules;
  }

  lemma PushedCharBucket(bucket: RuleBucket, rules: seq<Rule>, rule: Rule, c: CodeUnit)
    requires IsCharBucket(bucket, rules, c)
    ensures IsCharBucket(if Selects(LastChar(c), rule) then Pushed(bucket, rule) else bucket, rules + [rule], c)
  {
    hide SelectRules;
    SelectPush(rules, rule, LastChar(c));
    forall tag {
      SelectPush(rules, rule, LastCharTag(c, tag));
    }
  }

  lemma PushedEmptyBucket(bucket: RuleBucket, rules: seq<Rule>, rule: Rule)
    requires IsEmptyBucket(bucket, rules)
    ensures IsEmptyBucket(if Selects(EmptyEnd, rule) then Pushed(bucket, rule) else bucket, rules + [rule])
  {
    SelectPush(rules, rule, EmptyEnd);
    forall tag {
      SelectPush(rules, rule, EmptyEndTag(tag));
    }
  }

  /** The last-character index after one rule is pushed, with the bucket of its last character. */
  lemma PushedCharIndex(index: map<CodeUnit, RuleBucket>, rules: seq<Rule>, rule: Rule,
                        index': map<CodeUnit, RuleBucket>)
    requires IsCharIndex(index, rules)
    requires index' == if rule.conEnd == [] then index
                       else
                         var c := rule.conEnd[|rule.conEnd| - 1];
                         index[c := Pushed(if c in index then index[c] else EMPTY_BUCKET, rule)]
    ensures IsCharIndex(index', rules + [rule])
  {
    forall c
      ensures (c in index' <==> SelectRules(rules + [rule], LastChar(c)) != [])
           && (c in index' ==> IsCharBucket(index'[c], rules + [rule], c))
    {
      SelectPush(rules, rule, LastChar(c));
      if c in index {
        PushedCharBucket(index[c], rules, rule, c);
      } else {
        TagListsEmpty(rules, c);
        PushedCharBucket(EMPTY_BUCKET, rules, rule, c);
      }
    }
  }

  /** Pushing one virtual rule into its bucket keeps the rule set valid. */
  method AddRule(set0: RuleSet, rule: Rule) returns (set1: RuleSet)
    requires set0.Valid()
    ensures set1.Valid() && set1.virtualRules == set0.virtualRules + [rule]
  {
    var all := set0.virtualRules + [rule];
    var longest := if |rule.conEnd| > set0.longestConEnd then |rule.conEnd| else set0.longestConEnd;
    assert all[..|all| - 1] == set0.virtualRules;
    var index, empty := set0.byLastConEndChar, set0.emptyConEnd;
    if rule.conEnd == [] {
      empty := Pushed(empty, rule);
    } else {
      var c := rule.conEnd[|rule.conEnd| - 1];
      index := index[c := Pushed(if c in index then index[c] else EMPTY_BUCKET, rule)];
    }
    set1 := RuleSet(all, index, empty, longest);
    PushedEmptyBucket(set0.emptyConEnd, set0.virtualRules, rule);
    PushedCharIndex(set0.byLastConEndChar, set0.virtualRules, rule, index);
  }

  lemma {:induction false} TagListsEmpty(rules: seq<Rule>, c: CodeUnit)
    requires SelectRules(rules, LastChar(c)) == []
    ensures forall tag :: SelectRules(rules, LastCharTag(c, tag)) == []
  {
    if rules != [] {
      TagListsEmpty(rules[..|rules| - 1], c);
    }
  }

  /** RuleSet::loadFromJson() after JSON parsing: rejects a rule object that fails the length checks,
      and otherwise expands the file into virtual rules and fills the buckets. */
  method Load(raws: seq<RawRule>) returns (loaded: Option<RuleSet>)
    ensures loaded.None? <==>
      (exists raw :: raw in raws
         && (|raw.decEnds| != |raw.conEnds| || |raw.decTags| !in {1, |raw.conEnds|}
             || |raw.conTags| !in {1, |raw.conEnds|}))
    ensures loaded.Some? ==> loaded.value.Valid() && loaded.value.virtualRules == ExpandAll(raws)
  {
    for n := 0 to |raws|
      invariant forall raw :: raw in raws[..n] ==> WellFormed(raw)
    {
      if !WellFormed(raws[n]) {
        return None;
      }
    }
    var ruleSet := RuleSet([], map[], EMPTY_BUCKET, 0);
    for n := 0 to |raws|
      invariant ruleSet.Valid()
      invariant ruleSet.virtualRules == ExpandAll(raws[..n])
    {
      var raw := raws[n];
      for i := 0 to |raw.conEnds|
        invariant ruleSet.Valid()
        invariant ruleSet.virtualRules == ExpandAll(raws[..n]) + ExpandPrefix(raw, i)
      {
        ruleSet := AddRule(ruleSet, ExpandAt(raw, i));
      }
      assert raws[..n + 1][..n] == raws[..n];
    }
    assert raws[..|raws|] == raws;
    loaded := Some(ruleSet);
  }
}
