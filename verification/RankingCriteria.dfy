/** What each of the fourteen criteria puts first, in terms of the results themselves
    (src/lookup/ranking.cpp). */
module RankingCriteria {
  import opened Basics
  import opened Ranking

  /** The first k criteria do not tell two results apart. */
  ghost predicate AlikeBefore(k: nat, x: Result, y: Result) {
    CompareStages(0, k, x, y) == 0 && (k > 7 ==> !ComparesSecondary(x, y))
  }

  /** The first criterion that tells two results apart decides. */
  lemma StageDecides(k: nat, x: Result, y: Result)
    requires k < 14 && AlikeBefore(k, x, y) && StageCompare(k, x, y) < 0
    ensures LessThan(x, y)
  {
    hide StageCompare;
    StagesSplit(0, k, if k < 7 then 7 else 14, x, y);
    UndecoratedIsStages(x, y);
    if k == 7 {
      StagesSplit(0, 7, 8, x, y);
      FrequencyDecides(x, y);
    } else if k > 7 {
      ResultsAreStages(x, y);
    }
  }

  lemma FrequencyDecides(x: Result, y: Result)
    requires CompareUndecorated(x, y) == 0 && StageCompare(7, x, y) < 0
    ensures LessThan(x, y)
  {
  }

  /** 1: the longer match. */
  lemma LongestMatchFirst(x: Result, y: Result)
    requires |x.matchedText| > |y.matchedText|
    ensures LessThan(x, y) && LessThanUndecorated(x, y)
  {
  }

  /** 2: the headword that is the matched text. */
  lemma ExactHeadwordFirst(x: Result, y: Result)
    requires AlikeBefore(1, x, y)
    requires x.primarySpelling == x.matchedText && y.primarySpelling != y.matchedText
    ensures LessThan(x, y)
  {
    StageDecides(1, x, y);
  }

  lemma {:induction false} IndexOfExact(values: seq<Text>, wanted: Text)
    ensures IndexOf(values, wanted) == -1 <==> wanted !in values
    ensures wanted in values ==>
      && 0 <= IndexOf(values, wanted) < |values| && values[IndexOf(values, wanted)] == wanted
      && forall i :: 0 <= i < IndexOf(values, wanted) ==> values[i] != wanted
    ensures -1 <= IndexOf(values, wanted)
  {
    if values != [] && values[0] != wanted {
      IndexOfExact(values[1..], wanted);
      assert forall i :: 0 < i < |values| ==> values[i] == values[1..][i - 1];
    }
  }

  /** 3: the entry with the matched text among its readings. */
  lemma ReadingFirst(x: Result, y: Result)
    requires AlikeBefore(2, x, y)
    requires x.matchedText in x.readings && y.matchedText !in y.readings
    ensures LessThan(x, y)
  {
    IndexOfExact(x.readings, x.matchedText);
    IndexOfExact(y.readings, y.matchedText);
    StageDecides(2, x, y);
  }

  /** 4: fewer deconjugation steps. */
  lemma FewestStepsFirst(x: Result, y: Result)
    requires AlikeBefore(3, x, y) && x.minProperStepCount < y.minProperStepCount
    ensures LessThan(x, y)
  {
    StageDecides(3, x, y);
  }

  /** 5: the dictionary the user put first; one without a place comes last. */
  lemma DictionaryOrderFirst(x: Result, y: Result)
    requires AlikeBefore(4, x, y)
    requires 0 < x.dictionaryPriority < ABSENT_SCORE
    requires y.dictionaryPriority <= 0 || x.dictionaryPriority < y.dictionaryPriority
    ensures LessThan(x, y)
  {
    StageDecides(4, x, y);
  }

  ghost predicate HasTag(tags: seq<string>, tag: string) {
    exists i :: 0 <= i < |tags| && tags[i] == tag
  }

  lemma ContainsHas(tags: seq<string>, wanted: set<string>)
    ensures ContainsAny(tags, wanted) <==> exists tag :: tag in wanted && HasTag(tags, tag)
  {
    if v :| v in tags && v in wanted {
      var i :| 0 <= i < |tags| && tags[i] == v;
      assert HasTag(tags, v);
    }
  }

  /** A headword spelling marked as outdated, irregular or rare. */
  ghost predicate OddSpelling(info: JmdictInfo) {
    || HasTag(info.primarySpellingOrthographyInfo, "oK") || HasTag(info.primarySpellingOrthographyInfo, "iK")
    || HasTag(info.primarySpellingOrthographyInfo, "rK")
  }

  /** 6: of headwords that are the matched text, one with a regular spelling. */
  lemma RegularSpellingFirst(x: Result, y: Result)
    requires AlikeBefore(5, x, y) && x.primarySpelling == x.matchedText && y.primarySpelling == y.matchedText
    requires x.jmdict.Some? && !OddSpelling(x.jmdict.value)
    requires y.jmdict.Some? ==> OddSpelling(y.jmdict.value)
    ensures LessThan(x, y)
  {
    ContainsHas(x.jmdict.value.primarySpellingOrthographyInfo, {"oK", "iK", "rK"});
    if y.jmdict.Some? {
      ContainsHas(y.jmdict.value.primarySpellingOrthographyInfo, {"oK", "iK", "rK"});
    }
    StageDecides(5, x, y);
  }

  /** And one with an irregular spelling before one without spelling information. */
  lemma KnownSpellingFirst(x: Result, y: Result)
    requires AlikeBefore(5, x, y) && x.primarySpelling == x.matchedText && x.jmdict.Some?
    requires y.jmdict.None? || y.primarySpelling != y.matchedText
    ensures LessThan(x, y)
  {
    StageDecides(5, x, y);
  }

  /** The matched reading is marked as outdated, irregular or rare. */
  ghost predicate OddReading(r: Result) {
    && r.jmdict.Some?
    && exists k ::
         && 0 <= k < |r.readings| && r.readings[k] == r.matchedText
         && (forall j :: 0 <= j < k ==> r.readings[j] != r.matchedText)
         && k < |r.jmdict.value.readingsOrthographyInfo| && OddTags(r.jmdict.value.readingsOrthographyInfo[k])
  }

  ghost predicate OddTags(tags: seq<string>) {
    HasTag(tags, "ok") || HasTag(tags, "ik") || HasTag(tags, "rk")
  }

  /** Some sense is usually written in kana. */
  ghost predicate UsuallyKana(info: JmdictInfo) {
    || HasTag(info.miscShared, "uk")
    || exists i :: 0 <= i < |info.miscPerSense| && HasTag(info.miscPerSense[i], "uk")
  }

  /** The score of criterion 7, told from the record. */
  lemma ReadingScore(r: Result)
    requires r.jmdict.Some? && r.matchedText in r.readings
    ensures ReadingOrthographyScore(r) == if OddReading(r) then 2 else if UsuallyKana(r.jmdict.value) then 0 else 1
  {
    var info, k := r.jmdict.value, ReadingIndex(r);
    IndexOfExact(r.readings, r.matchedText);
    if k < |info.readingsOrthographyInfo| {
      ContainsHas(info.readingsOrthographyInfo[k], {"ok", "ik", "rk"});
    }
    ContainsHas(info.miscShared, {"uk"});
    if misc :| misc in info.miscPerSense && ContainsAny(misc, {"uk"}) {
      var i :| 0 <= i < |info.miscPerSense| && info.miscPerSense[i] == misc;
      ContainsHas(misc, {"uk"});
    }
    if i :| 0 <= i < |info.miscPerSense| && HasTag(info.miscPerSense[i], "uk") {
      ContainsHas(info.miscPerSense[i], {"uk"});
      assert info.miscPerSense[i] in info.miscPerSense;
    }
  }

  /** 7: of entries read like the matched text, one usually written in kana before another, and one with a
      regular reading before one without. */
  lemma UsualReadingFirst(x: Result, y: Result)
    requires AlikeBefore(6, x, y) && x.jmdict.Some? && x.matchedText in x.readings && !OddReading(x)
    requires || y.jmdict.None? || y.matchedText !in y.readings || OddReading(y)
             || (UsuallyKana(x.jmdict.value) && !UsuallyKana(y.jmdict.value))
    ensures LessThan(x, y)
  {
    hide ReadingOrthographyScore, OddReading, UsuallyKana;
    ReadingScore(x);
    NoReadingScore(y);
    if y.jmdict.Some? && y.matchedText in y.readings {
      ReadingScore(y);
    }
    StageDecides(6, x, y);
  }

  lemma NoReadingScore(y: Result)
    ensures y.jmdict.None? || y.matchedText !in y.readings ==> ReadingOrthographyScore(y) == ABSENT_SCORE
  {
    IndexOfExact(y.readings, y.matchedText);
  }

  /** 8: of two words a frequency dictionary ranks, the lower rank. */
  lemma LowerRankFirst(x: Result, y: Result)
    requires AlikeBefore(7, x, y) && x.frequencies != [] && y.frequencies != []
    requires !x.frequencies[0].higherIsBetter && !y.frequencies[0].higherIsBetter
    requires x.frequencies[0].rank < y.frequencies[0].rank
    ensures LessThan(x, y)
  {
    StageDecides(7, x, y);
  }

  /** Of two words a frequency dictionary counts, the higher occurrence count, where the largest number an int
      holds stands for no count. */
  lemma HigherCountFirst(x: Result, y: Result)
    requires AlikeBefore(7, x, y) && x.frequencies != [] && y.frequencies != []
    requires x.frequencies[0].higherIsBetter && y.frequencies[0].higherIsBetter
    requires ABSENT_SCORE > x.frequencies[0].rank > y.frequencies[0].rank >= 0
    ensures LessThan(x, y)
  {
    StageDecides(7, x, y);
  }

  /** A word a dictionary covers before one none covers. */
  lemma CoveredFirst(x: Result, y: Result)
    requires AlikeBefore(7, x, y) && x.frequencies != [] && y.frequencies == [] && y.priorityRank <= 0
    requires x.frequencies[0].rank < ABSENT_SCORE
    requires x.frequencies[0].higherIsBetter ==> x.frequencies[0].rank > 0
    ensures LessThan(x, y)
  {
    StageDecides(7, x, y);
  }

  /** Without frequency dictionaries, the lower priority rank of the record, and one with such a rank before
      one without. */
  lemma PriorityRankFirst(x: Result, y: Result)
    requires AlikeBefore(7, x, y) && x.frequencies == [] && y.frequencies == []
    requires 0 < x.priorityRank < ABSENT_SCORE && (y.priorityRank <= 0 || x.priorityRank < y.priorityRank)
    ensures LessThan(x, y)
  {
    StageDecides(7, x, y);
  }

  /** Position p of the hits behind the first names the dictionary, and no earlier one does. */
  ghost predicate FirstNamed(hits: seq<FrequencyHit>, name: string, p: nat) {
    && 1 <= p < |hits| && hits[p].dictionaryName == name
    && forall q :: 1 <= q < p ==> hits[q].dictionaryName != name
  }

  lemma {:induction false} FindHitExact(hits: seq<FrequencyHit>, name: string, i: nat)
    requires 1 <= i
    ensures var found := FindHit(hits, name, i);
      && (found.None? ==> forall q :: i <= q < |hits| ==> hits[q].dictionaryName != name)
      && (found.Some? ==> exists p :: i <= p < |hits| && hits[p] == found.value && hits[p].dictionaryName == name
                                      && forall q :: i <= q < p ==> hits[q].dictionaryName != name)
    decreases |hits| - i
  {
    if i < |hits| && hits[i].dictionaryName != name {
      FindHitExact(hits, name, i + 1);
    }
  }

  /** The lower-priority dictionaries of x before hit i do not tell x and y apart. */
  ghost predicate SecondaryAlike(x: Result, y: Result, i: nat) {
    forall j: nat, q: nat ::
      1 <= j < i && j < |x.frequencies| && FirstNamed(y.frequencies, x.frequencies[j].dictionaryName, q) ==>
        x.frequencies[j].rank == y.frequencies[q].rank
  }

  lemma {:induction false} SecondaryFrom(x: Result, y: Result, j: nat, i: nat, p: nat)
    requires 1 <= j <= i < |x.frequencies| && SecondaryAlike(x, y, i)
    requires FirstNamed(y.frequencies, x.frequencies[i].dictionaryName, p)
    requires x.frequencies[i].rank != y.frequencies[p].rank
    ensures CompareSecondary(x, y, j) < 0 <==>
      NormalizedFrequencyScore(x.frequencies[i]) < NormalizedFrequencyScore(y.frequencies[p])
    decreases i - j
  {
    FindHitExact(y.frequencies, x.frequencies[j].dictionaryName, 1);
    if j < i {
      SecondaryFrom(x, y, j + 1, i, p);
    }
  }

  /** Neither the first dictionary nor the readings tell two words apart: both have no score, or other
      readings of which none is the matched text. */
  predicate AsksSecondary(x: Result, y: Result) {
    || (FrequencyScore(x) == ABSENT_SCORE && FrequencyScore(y) == ABSENT_SCORE)
    || (x.matchedText !in x.readings && y.matchedText !in y.readings && x.readings != y.readings)
  }

  /** Between words the first dictionary scores alike, the first lower-priority one that answers for both
      with different ranks decides, when the readings do not: the lower rank, or the higher count. */
  lemma SecondaryRankFirst(x: Result, y: Result, i: nat, p: nat)
    requires CompareUndecorated(x, y) == 0 && FrequencyScore(x) == FrequencyScore(y) && AsksSecondary(x, y)
    requires 1 <= i < |x.frequencies| && SecondaryAlike(x, y, i)
    requires FirstNamed(y.frequencies, x.frequencies[i].dictionaryName, p)
    requires var a, b := x.frequencies[i], y.frequencies[p];
      && a.higherIsBetter == b.higherIsBetter
      && if a.higherIsBetter then ABSENT_SCORE > a.rank > b.rank >= 0 else a.rank < b.rank
    ensures LessThan(x, y)
  {
    IndexOfExact(x.readings, x.matchedText);
    IndexOfExact(y.readings, y.matchedText);
    SecondaryFrom(x, y, 1, i, p);
  }

  /** 9: the more popular entry. */
  lemma PopularFirst(x: Result, y: Result)
    requires AlikeBefore(8, x, y) && x.popularityScore > y.popularityScore
    ensures LessThan(x, y)
  {
    StageDecides(8, x, y);
  }

  /** 10: the entry that lists the matched reading earlier. */
  lemma EarlierReadingFirst(x: Result, y: Result, i: nat)
    requires AlikeBefore(9, x, y) && i < |x.readings| < ABSENT_SCORE && x.readings[i] == x.matchedText
    requires forall k :: 0 <= k <= i && k < |y.readings| ==> y.readings[k] != y.matchedText
    ensures LessThan(x, y)
  {
    IndexOfExact(x.readings, x.matchedText);
    IndexOfExact(y.readings, y.matchedText);
    StageDecides(9, x, y);
  }

  /** 11: the entry with the lower id; one without an id comes last. */
  lemma LowerIdFirst(x: Result, y: Result)
    requires AlikeBefore(10, x, y) && 0 < x.entryId < ABSENT_SCORE && (y.entryId <= 0 || x.entryId < y.entryId)
    ensures LessThan(x, y)
  {
    StageDecides(10, x, y);
  }

  /** A text comes before another when it is a beginning of it or has the smaller code unit where they first
      differ. */
  ghost predicate ComesBefore(a: Text, b: Text) {
    exists k :: 0 <= k <= |a| && k <= |b| && a[..k] == b[..k]
      && (if k == |a| then k < |b| else k < |b| && a[k] < b[k])
  }

  lemma {:induction false} CompareTextExact(a: Text, b: Text)
    requires ComesBefore(a, b)
    ensures CompareText(a, b) < 0
    decreases |a|
  {
    var k :| 0 <= k <= |a| && k <= |b| && a[..k] == b[..k]
             && (if k == |a| then k < |b| else k < |b| && a[k] < b[k]);
    if k > 0 {
      assert a[0] == a[..k][0] == b[..k][0] == b[0];
      assert a[1..][..k - 1] == a[..k][1..] && b[1..][..k - 1] == b[..k][1..];
      assert ComesBefore(a[1..], b[1..]);
      CompareTextExact(a[1..], b[1..]);
    }
  }

  /** 12: the headword that comes first in code-unit order. */
  lemma SpellingOrderFirst(x: Result, y: Result)
    requires AlikeBefore(11, x, y) && ComesBefore(x.primarySpelling, y.primarySpelling)
    ensures LessThan(x, y)
  {
    CompareTextExact(x.primarySpelling, y.primarySpelling);
    StageDecides(11, x, y);
  }

  /** 13 and 14: the longer definitions, and of equally long ones those first in code-unit order. */
  lemma DefinitionsFirst(x: Result, y: Result)
    requires AlikeBefore(12, x, y)
    requires || |x.definitions| > |y.definitions|
             || (|x.definitions| == |y.definitions| && ComesBefore(x.definitions, y.definitions))
    ensures LessThan(x, y)
  {
    if |x.definitions| > |y.definitions| {
      StageDecides(12, x, y);
    } else {
      CompareTextExact(x.definitions, y.definitions);
      StagesSplit(0, 12, 13, x, y);
      StageDecides(13, x, y);
    }
  }
}
