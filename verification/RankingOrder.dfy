/** When the result order is an order std::stable_sort may be called with. */
module RankingOrder {
  import opened Basics
  import opened Ranking
  import opened StableSorting

  /** Criteria 1 to 7 always are. */
  lemma UndecoratedWeakOrder(xs: seq<Result>)
    ensures WeakOrderOn(LessThanUndecorated, xs)
  {
    hide CompareUndecorated;
    hide CompareStages;
    forall x, y, z
      ensures !LessThanUndecorated(x, x)
      ensures LessThanUndecorated(x, y) && LessThanUndecorated(y, z) ==> LessThanUndecorated(x, z)
      ensures !LessThanUndecorated(x, y) && !LessThanUndecorated(y, z) ==> !LessThanUndecorated(x, z)
    {
      UndecoratedLaws(x, y, z);
      UndecoratedLaws(z, y, x);
      UndecoratedLaws(y, z, x);
      UndecoratedLaws(z, x, y);
    }
  }

  lemma UndecoratedLaws(x: Result, y: Result, z: Result)
    ensures CompareUndecorated(x, y) == -CompareUndecorated(y, x)
    ensures CompareUndecorated(x, x) == 0
    ensures CompareUndecorated(x, y) <= 0 && CompareUndecorated(y, z) <= 0 ==> CompareUndecorated(x, z) <= 0
    ensures CompareUndecorated(x, y) <= 0 && CompareUndecorated(y, z) <= 0 && CompareUndecorated(x, z) >= 0
        ==> CompareUndecorated(x, y) == 0 && CompareUndecorated(y, z) == 0
  {
    hide CompareUndecorated;
    hide CompareStages;
    UndecoratedIsStages(x, y);
    UndecoratedIsStages(y, x);
    UndecoratedIsStages(x, x);
    UndecoratedIsStages(y, z);
    UndecoratedIsStages(z, y);
    UndecoratedIsStages(x, z);
    UndecoratedIsStages(z, x);
    StagesLaws(0, 7, x, y, z);
    StagesLaws(0, 7, x, x, x);
    StagesLaws(0, 7, y, z, x);
    StagesLaws(0, 7, z, x, y);
  }

  /** The full order is, on results of which no two make it walk the secondary dictionaries. */
  lemma FullWeakOrder(xs: seq<Result>)
    requires forall x, y :: x in xs && y in xs ==> !ComparesSecondary(x, y)
    ensures WeakOrderOn(LessThan, xs)
  {
    hide CompareResults;
    hide CompareStages;
    hide ComparesSecondary;
    forall x, y, z | x in xs && y in xs && z in xs
      ensures !LessThan(x, x)
      ensures LessThan(x, y) && LessThan(y, z) ==> LessThan(x, z)
      ensures !LessThan(x, y) && !LessThan(y, z) ==> !LessThan(x, z)
    {
      FullLaws(x, y, z);
    }
  }

  lemma FullLaws(x: Result, y: Result, z: Result)
    requires !ComparesSecondary(x, y) && !ComparesSecondary(y, x) && !ComparesSecondary(x, x)
    requires !ComparesSecondary(y, z) && !ComparesSecondary(z, y)
    requires !ComparesSecondary(x, z) && !ComparesSecondary(z, x)
    ensures !LessThan(x, x)
    ensures LessThan(x, y) && LessThan(y, z) ==> LessThan(x, z)
    ensures !LessThan(x, y) && !LessThan(y, z) ==> !LessThan(x, z)
  {
    hide CompareResults;
    hide CompareStages;
    ResultsAreStages(x, x);
    ResultsAreStages(x, y);
    ResultsAreStages(y, z);
    ResultsAreStages(x, z);
    StagesLaws(0, 14, x, x, x);
    StagesLaws(0, 14, x, y, z);
    StagesLaws(0, 14, y, z, x);
    StagesLaws(0, 14, z, x, y);
    StagesLaws(0, 14, z, y, x);
  }

  // ---------------------------------------------------------------- how many frequency dictionaries

  /** The hits name some of the enabled frequency dictionaries, in the user's order. For a kanji result
      the dictionary of its own record comes first. */
  ghost predicate DecoratedBy(names: seq<string>, hits: seq<FrequencyHit>)
    decreases |names|
  {
    if names == [] then
      hits == []
    else
      || DecoratedBy(names[1..], hits)
      || (hits != [] && hits[0].dictionaryName == names[0] && DecoratedBy(names[1..], hits[1..]))
  }

  /** Every list the enabled frequency dictionaries can decorate is one the sort may be called on. */
  ghost predicate SortIsDefined(names: seq<string>) {
    forall xs: seq<Result> :: (forall r :: r in xs ==> DecoratedBy(names, r.frequencies)) ==> WeakOrderOn(LessThan, xs)
  }

  lemma {:induction false} HitsWithin(names: seq<string>, hits: seq<FrequencyHit>)
    requires DecoratedBy(names, hits)
    ensures |hits| <= |names|
    decreases |names|
  {
    if names != [] {
      if DecoratedBy(names[1..], hits) {
        HitsWithin(names[1..], hits);
      } else {
        HitsWithin(names[1..], hits[1..]);
      }
    }
  }

  function Ranked(reading: CodeUnit, popularity: real, hits: seq<FrequencyHit>): Result {
    Result([0], [[reading]], [0], 0, "", 1, false, None, None, 0, popularity, [], hits, 0, [])
  }

  function Hit(name: string, rank: int): FrequencyHit {
    FrequencyHit(name, rank, false)
  }

  lemma NoReadingMatches(reading: CodeUnit, popularity: real, hits: seq<FrequencyHit>)
    requires reading != 0
    ensures ReadingIndex(Ranked(reading, popularity, hits)) == -1
  {
    var r := Ranked(reading, popularity, hits);
    assert r.readings[0][0] != r.matchedText[0];
    assert r.readings[1..] == [];
    assert IndexOf(r.readings[1..], r.matchedText) == -1;
  }

  /** Three results of one headword text under two frequency dictionaries: the second dictionary puts
      the first before the third, and the popularity score the third before the second and the second
      before the first, because the second dictionary does not answer for it. */
  lemma SecondaryFrequenciesCycle(first: string, second: string)
    ensures var x := Ranked(1, 1.0, [Hit(first, 100), Hit(second, 1)]);
      var y := Ranked(2, 2.0, [Hit(first, 100)]);
      var z := Ranked(3, 3.0, [Hit(first, 100), Hit(second, 2)]);
      LessThan(x, z) && LessThan(z, y) && LessThan(y, x)
  {
    var x := Ranked(1, 1.0, [Hit(first, 100), Hit(second, 1)]);
    var y := Ranked(2, 2.0, [Hit(first, 100)]);
    var z := Ranked(3, 3.0, [Hit(first, 100), Hit(second, 2)]);
    NoReadingMatches(1, 1.0, x.frequencies);
    NoReadingMatches(2, 2.0, y.frequencies);
    NoReadingMatches(3, 3.0, z.frequencies);
    assert x.readings[0][0] != z.readings[0][0];
    assert CompareSecondary(x, z, 1) == -1;
    assert CompareUndecorated(x, z) == CompareUndecorated(z, y) == CompareUndecorated(y, x) == 0;
  }

  lemma TwoHitsDecorated(names: seq<string>, ranks: (int, int))
    requires |names| >= 2
    ensures DecoratedBy(names, [Hit(names[0], ranks.0), Hit(names[1], ranks.1)])
    ensures DecoratedBy(names, [Hit(names[0], ranks.0)])
  {
    NoHitsDecorated(names[2..]);
    NoHitsDecorated(names[1..]);
    var two, one := [Hit(names[0], ranks.0), Hit(names[1], ranks.1)], [Hit(names[1], ranks.1)];
    assert two[1..] == one && one[1..] == [] && [Hit(names[0], ranks.0)][1..] == [];
    assert names[1..][1..] == names[2..];
    assert DecoratedBy(names[1..], one);
  }

  lemma {:induction false} NoHitsDecorated(names: seq<string>)
    ensures DecoratedBy(names, [])
    decreases |names|
  {
    if names != [] {
      NoHitsDecorated(names[1..]);
    }
  }

  /** The sort is called with a strict weak order on every list if and only if at most one frequency
      dictionary is enabled, counting for kanji results the dictionary of their own record. */
  lemma SortIsDefinedExactly(names: seq<string>)
    ensures SortIsDefined(names) <==> |names| <= 1
  {
    if |names| <= 1 {
      forall xs: seq<Result> | forall r :: r in xs ==> DecoratedBy(names, r.frequencies)
        ensures WeakOrderOn(LessThan, xs)
      {
        forall r | r in xs
          ensures |r.frequencies| <= 1
        {
          HitsWithin(names, r.frequencies);
        }
        FullWeakOrder(xs);
      }
    } else {
      var x := Ranked(1, 1.0, [Hit(names[0], 100), Hit(names[1], 1)]);
      var y := Ranked(2, 2.0, [Hit(names[0], 100)]);
      var z := Ranked(3, 3.0, [Hit(names[0], 100), Hit(names[1], 2)]);
      SecondaryFrequenciesCycle(names[0], names[1]);
      TwoHitsDecorated(names, (100, 1));
      TwoHitsDecorated(names, (100, 2));
      var xs := [x, y, z];
      assert forall r :: r in xs ==> DecoratedBy(names, r.frequencies);
      assert x in xs && y in xs && z in xs;
      if WeakOrderOn(LessThan, xs) {
        assert false;
      }
    }
  }
}
