/** Deriving the forms of a recognition variant from the forms of the key it was substituted in
    (src/lookup/ocrvariants.cpp), instead of deconjugating the variant. */
module DeconjVariants {
  import opened Basics
  import opened DeconjRules
  import opened DeconjSpec
  import opened DeconjSearch
  import opened DeconjPrefix

  /** substitutedForms(): every form with one code unit replaced, None where a form is too short. */
  method SubstitutedForms(forms: seq<Form>, position: nat, substitute: CodeUnit, variant: Text)
    returns (out: Option<seq<Form>>)
    ensures out.Some? <==> forall i :: 0 <= i < |forms| ==> position < |forms[i].text|
    ensures out.Some? ==> |out.value| == |forms| && forall i :: 0 <= i < |forms| ==>
      out.value[i] == forms[i].(text := forms[i].text[position := substitute], originalText := variant)
  {
    var copies: seq<Form> := [];
    for n := 0 to |forms|
      invariant |copies| == n
      invariant forall i :: 0 <= i < n ==> position < |forms[i].text|
      invariant forall i :: 0 <= i < n ==>
        copies[i] == forms[i].(text := forms[i].text[position := substitute], originalText := variant)
    {
      var form := forms[n];
      if position >= |form.text| {
        return None;
      }
      copies := copies + [form.(text := form.text[position := substitute], originalText := variant)];
    }
    out := Some(copies);
  }

  lemma RegraftOneUnit(surface: Text, p: nat, position: nat, substitute: CodeUnit, item: Item)
    requires position < p <= |surface| && Aligned(surface, p, item)
    ensures Regraft(item, p, surface[position := substitute]) == item.(text := item.text[position := substitute])
  {
    var variant := surface[position := substitute];
    assert item.text == surface[..p] + item.text[p..];
    assert variant[..p] + item.text[p..] == item.text[position := substitute];
  }

  /** Inside the untouched prefix of a search that ended, the substitution never fails and yields
      exactly what the full search of the variant answers, with the same untouched prefix. */
  method VariantForms(ruleSet: RuleSet, key: Text, position: nat, substitute: CodeUnit, ghost n: nat)
    returns (forms: seq<Form>, untouchedPrefix: nat, derived: Option<seq<Form>>)
    requires ruleSet.Valid() && EndsAt(ruleSet.virtualRules, key, n)
    ensures AbsAll(forms) == Answer(ruleSet.virtualRules, key, n)
    ensures untouchedPrefix == Untouched(ruleSet.virtualRules, key, n) <= |key|
    ensures position < untouchedPrefix ==>
      var variant := key[position := substitute];
      && derived.Some?
      && EndsAt(ruleSet.virtualRules, variant, n)
      && AbsAll(derived.value) == Answer(ruleSet.virtualRules, variant, n)
      && FormsOk(ruleSet.virtualRules, variant, derived.value)
      && untouchedPrefix == Untouched(ruleSet.virtualRules, variant, n)
  {
    hide Answer;
    hide Untouched;
    hide LongestOf;
    hide SelectRules;
    ghost var rules := ruleSet.virtualRules;
    forms, untouchedPrefix := Deconjugate(ruleSet, key, n);
    AnswerKeepsPrefix(rules, key, n);
    derived := None;
    if position < untouchedPrefix {
      var variant := key[position := substitute];
      derived := SubstitutedForms(forms, position, substitute, variant);
      VariantAnswer(rules, key, position, substitute, forms, n);
      assert forall i :: 0 <= i < |forms| ==> Abs(forms[i]) == Answer(rules, key, n)[i];
    }
  }

  lemma VariantAnswer(rules: seq<Rule>, key: Text, position: nat, substitute: CodeUnit, forms: seq<Form>, n: nat)
    requires EndsAt(rules, key, n) && position < Untouched(rules, key, n) <= |key|
    requires AbsAll(forms) == Answer(rules, key, n)
    ensures forall i :: 0 <= i < |forms| ==> position < |forms[i].text|
    ensures var variant := key[position := substitute];
      && EndsAt(rules, variant, n)
      && Untouched(rules, variant, n) == Untouched(rules, key, n)
      && |Answer(rules, variant, n)| == |forms|
      && forall i :: 0 <= i < |forms| ==>
           Answer(rules, variant, n)[i] == Abs(forms[i]).(text := forms[i].text[position := substitute])
  {
    hide Answer;
    hide Untouched;
    var p, variant := Untouched(rules, key, n), key[position := substitute];
    assert key[p..] == variant[p..];
    UntouchedPrefixIsSimulation(rules, key, variant, n);
    AnswerKeepsPrefix(rules, key, n);
    forall i | 0 <= i < |forms|
      ensures position < |forms[i].text|
      ensures Answer(rules, variant, n)[i] == Abs(forms[i]).(text := forms[i].text[position := substitute])
    {
      assert Abs(forms[i]) == Answer(rules, key, n)[i];
      RegraftOneUnit(key, p, position, substitute, Abs(forms[i]));
    }
  }
}
