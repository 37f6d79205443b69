/** The fourteen-criterion result order (src/lookup/ranking.cpp). */
module Ranking {
  import opened Basics

  const ABSENT_SCORE: int := 0x7fff_ffff

  datatype FrequencyHit = FrequencyHit(dictionaryName: string, rank: int, higherIsBetter: bool)

  /** What criteria 6 and 7 read of a JMdict record. */
  datatype JmdictInfo = JmdictInfo(primarySpellingOrthographyInfo: seq<string>,
                                   readingsOrthographyInfo: seq<seq<string>>,
                                   miscShared: seq<string>, miscPerSense: seq<seq<string>>)

  /** One lookup result: the fields the order and the decoration read, and the place it was found at.
      kanjiFrequency is the frequency its own kanji record holds, if it has one. */
  datatype Result = Result(primarySpelling: Text, readings: seq<Text>, matchedText: Text,
                           minProperStepCount: int, dictionaryName: string, dictionaryPriority: int, isKanji: bool,
                           kanjiFrequency: Option<int>, jmdict: Option<JmdictInfo>, entryId: int,
                           popularityScore: real, definitions: Text, frequencies: seq<FrequencyHit>, priorityRank: int,
                           pitchPositions: seq<Option<int>>)

  // ---------------------------------------------------------------- scores

  function CompareInt(left: int, right: int): int {
    if left == right then 0 else if left < right then -1 else 1
  }

  /** Code-unit order. */
  function CompareText(left: Text, right: Text): int {
    if left == [] then (if right == [] then 0 else -1)
    else if right == [] then 1
    else if left[0] != right[0] then (if left[0] < right[0] then -1 else 1)
    else CompareText(left[1..], right[1..])
  }

  function MatchedPrimarySpelling(r: Result): bool {
    r.primarySpelling == r.matchedText
  }

  function IndexOf(values: seq<Text>, wanted: Text): int {
    if values == [] then -1
    else if values[0] == wanted then 0
    else
      var rest := IndexOf(values[1..], wanted);
      if rest < 0 then -1 else rest + 1
  }

  function ReadingIndex(r: Result): int {
    IndexOf(r.readings, r.matchedText)
  }

  predicate ContainsAny(values: seq<string>, wanted: set<string>) {
    exists v :: v in values && v in wanted
  }

  function PrimarySpellingOrthographyScore(r: Result): int {
    if r.jmdict.None? || !MatchedPrimarySpelling(r) then ABSENT_SCORE
    else if ContainsAny(r.jmdict.value.primarySpellingOrthographyInfo, {"oK", "iK", "rK"}) then 1 else 0
  }

  function ReadingOrthographyScore(r: Result): int {
    var index := ReadingIndex(r);
    if r.jmdict.None? || index < 0 then ABSENT_SCORE
    else
      var info := r.jmdict.value;
      if index < |info.readingsOrthographyInfo|
         && ContainsAny(info.readingsOrthographyInfo[index], {"ok", "ik", "rk"}) then 2
      else if ContainsAny(info.miscShared, {"uk"}) then 0
      else if exists misc :: misc in info.miscPerSense && ContainsAny(misc, {"uk"}) then 0
      else 1
  }

  function NormalizedFrequencyScore(hit: FrequencyHit): int {
    if !hit.higherIsBetter then hit.rank
    else if hit.rank == ABSENT_SCORE then ABSENT_SCORE
    else ABSENT_SCORE - hit.rank
  }

  function FrequencyScore(r: Result): int {
    if r.frequencies != [] then NormalizedFrequencyScore(r.frequencies[0])
    else if r.priorityRank > 0 then r.priorityRank
    else ABSENT_SCORE
  }

  // ---------------------------------------------------------------- the order

  /** The first hit of the named dictionary behind the first hit. */
  function FindHit(hits: seq<FrequencyHit>, name: string, i: nat): Option<FrequencyHit>
    decreases |hits| - i
  {
    if i >= |hits| then None
    else if hits[i].dictionaryName == name then Some(hits[i])
    else FindHit(hits, name, i + 1)
  }

  /** compareSecondaryFrequencies(), from position i of the left hits. */
  function CompareSecondary(left: Result, right: Result, i: nat): int
    decreases |left.frequencies| - i
  {
    if i >= |left.frequencies| then 0
    else
      var hit := left.frequencies[i];
      var other := FindHit(right.frequencies, hit.dictionaryName, 1);
      if other.None? || hit.rank == other.value.rank then CompareSecondary(left, right, i + 1)
      else if NormalizedFrequencyScore(hit) < NormalizedFrequencyScore(other.value) then -1 else 1
  }

  function CompareUndecorated(left: Result, right: Result): int {
    if |left.matchedText| != |right.matchedText| then
      (if |left.matchedText| > |right.matchedText| then -1 else 1)
    else if MatchedPrimarySpelling(left) != MatchedPrimarySpelling(right) then
      (if MatchedPrimarySpelling(left) then -1 else 1)
    else if (ReadingIndex(left) >= 0) != (ReadingIndex(right) >= 0) then
      (if ReadingIndex(left) >= 0 then -1 else 1)
    else if left.minProperStepCount != right.minProperStepCount then
      CompareInt(left.minProperStepCount, right.minProperStepCount)
    else
      var leftPriority := if left.dictionaryPriority > 0 then left.dictionaryPriority else ABSENT_SCORE;
      var rightPriority := if right.dictionaryPriority > 0 then right.dictionaryPriority else ABSENT_SCORE;
      if leftPriority != rightPriority then CompareInt(leftPriority, rightPriority)
      else if PrimarySpellingOrthographyScore(left) != PrimarySpellingOrthographyScore(right) then
        CompareInt(PrimarySpellingOrthographyScore(left), PrimarySpellingOrthographyScore(right))
      else CompareInt(ReadingOrthographyScore(left), ReadingOrthographyScore(right))
  }

  /** Whether criterion 8 walks the lower-priority frequency dictionaries. */
  predicate ComparesSecondary(left: Result, right: Result) {
    && |left.frequencies| > 1 && |right.frequencies| > 1
    && (FrequencyScore(left) == ABSENT_SCORE
        || (ReadingIndex(left) < 0 && ReadingIndex(right) < 0 && left.readings != right.readings))
  }

  /** Criteria 9 to 14. */
  function CompareTail(left: Result, right: Result): int {
    if left.popularityScore != right.popularityScore then
      (if left.popularityScore > right.popularityScore then -1 else 1)
    else
      var leftReading := if ReadingIndex(left) >= 0 then ReadingIndex(left) else ABSENT_SCORE;
      var rightReading := if ReadingIndex(right) >= 0 then ReadingIndex(right) else ABSENT_SCORE;
      if leftReading != rightReading then CompareInt(leftReading, rightReading)
      else
        var leftId := if left.entryId > 0 then left.entryId else ABSENT_SCORE;
        var rightId := if right.entryId > 0 then right.entryId else ABSENT_SCORE;
        if leftId != rightId then CompareInt(leftId, rightId)
        else
          var spelling := CompareText(left.primarySpelling, right.primarySpelling);
          if spelling != 0 then spelling
          else if |left.definitions| != |right.definitions| then
            (if |left.definitions| > |right.definitions| then -1 else 1)
          else CompareText(left.definitions, right.definitions)
  }

  function CompareResults(left: Result, right: Result): int {
    var undecorated := CompareUndecorated(left, right);
    if undecorated != 0 then undecorated
    else if FrequencyScore(left) != FrequencyScore(right) then CompareInt(FrequencyScore(left), FrequencyScore(right))
    else
      var secondary := if ComparesSecondary(left, right) then CompareSecondary(left, right, 1) else 0;
      if secondary != 0 then secondary else CompareTail(left, right)
  }

  predicate LessThan(left: Result, right: Result) {
    CompareResults(left, right) < 0
  }

  predicate LessThanUndecorated(left: Result, right: Result) {
    CompareUndecorated(left, right) < 0
  }

  // ---------------------------------------------------------------- the order as stages of keys

  /** The number compared at a stage; a smaller one sorts first. */
  function StageKey(stage: nat, r: Result): int {
    match stage
    case 0 => -|r.matchedText|
    case 1 => if MatchedPrimarySpelling(r) then 0 else 1
    case 2 => if ReadingIndex(r) >= 0 then 0 else 1
    case 3 => r.minProperStepCount
    case 4 => if r.dictionaryPriority > 0 then r.dictionaryPriority else ABSENT_SCORE
    case 5 => PrimarySpellingOrthographyScore(r)
    case 6 => ReadingOrthographyScore(r)
    case 7 => FrequencyScore(r)
    case 9 => if ReadingIndex(r) >= 0 then ReadingIndex(r) else ABSENT_SCORE
    case 10 => if r.entryId > 0 then r.entryId else ABSENT_SCORE
    case 12 => -|r.definitions|
    case _ => 0
  }

  function StageCompare(stage: nat, left: Result, right: Result): int {
    match stage
    case 8 => if left.popularityScore == right.popularityScore then 0
              else if left.popularityScore > right.popularityScore then -1 else 1
    case 11 => CompareText(left.primarySpelling, right.primarySpelling)
    case 13 => CompareText(left.definitions, right.definitions)
    case _ => CompareInt(StageKey(stage, left), StageKey(stage, right))
  }

  /** The first stage in from..upto that tells the results apart. */
  function CompareStages(from: nat, upto: nat, left: Result, right: Result): int
    decreases upto - from
  {
    if from >= upto then 0
    else
      var first := StageCompare(from, left, right);
      if first != 0 then first else CompareStages(from + 1, upto, left, right)
  }

  lemma UndecoratedIsStages(left: Result, right: Result)
    ensures CompareUndecorated(left, right) == CompareStages(0, 7, left, right)
  {
    assert CompareStages(7, 7, left, right) == 0;
    assert CompareStages(6, 7, left, right) == StageCompare(6, left, right);
    assert CompareStages(5, 7, left, right) ==
      if StageCompare(5, left, right) != 0 then StageCompare(5, left, right) else CompareStages(6, 7, left, right);
    assert CompareStages(4, 7, left, right) ==
      if StageCompare(4, left, right) != 0 then StageCompare(4, left, right) else CompareStages(5, 7, left, right);
    assert CompareStages(3, 7, left, right) ==
      if StageCompare(3, left, right) != 0 then StageCompare(3, left, right) else CompareStages(4, 7, left, right);
    assert CompareStages(2, 7, left, right) ==
      if StageCompare(2, left, right) != 0 then StageCompare(2, left, right) else CompareStages(3, 7, left, right);
    assert CompareStages(1, 7, left, right) ==
      if StageCompare(1, left, right) != 0 then StageCompare(1, left, right) else CompareStages(2, 7, left, right);
  }

  lemma TailIsStages(left: Result, right: Result)
    ensures CompareTail(left, right) == CompareStages(8, 14, left, right)
  {
    assert CompareStages(13, 14, left, right) == StageCompare(13, left, right);
    assert CompareStages(12, 14, left, right) ==
      if StageCompare(12, left, right) != 0 then StageCompare(12, left, right) else CompareStages(13, 14, left, right);
    assert CompareStages(11, 14, left, right) ==
      if StageCompare(11, left, right) != 0 then StageCompare(11, left, right) else CompareStages(12, 14, left, right);
    assert CompareStages(10, 14, left, right) ==
      if StageCompare(10, left, right) != 0 then StageCompare(10, left, right) else CompareStages(11, 14, left, right);
    assert CompareStages(9, 14, left, right) ==
      if StageCompare(9, left, right) != 0 then StageCompare(9, left, right) else CompareStages(10, 14, left, right);
  }

  lemma {:induction false} StagesSplit(from: nat, mid: nat, upto: nat, left: Result, right: Result)
    requires from <= mid <= upto
    ensures CompareStages(from, upto, left, right) ==
      if CompareStages(from, mid, left, right) != 0 then CompareStages(from, mid, left, right)
      else CompareStages(mid, upto, left, right)
    decreases mid - from
  {
    hide StageCompare;
    if from < mid {
      StagesSplit(from + 1, mid, upto, left, right);
    }
  }

  /** Without a secondary walk the whole order is the stages in turn. */
  lemma ResultsAreStages(left: Result, right: Result)
    requires !ComparesSecondary(left, right)
    ensures CompareResults(left, right) == CompareStages(0, 14, left, right)
  {
    hide StageCompare;
    UndecoratedIsStages(left, right);
    TailIsStages(left, right);
    StagesSplit(0, 7, 14, left, right);
    FrequencyStage(left, right);
  }

  lemma FrequencyStage(left: Result, right: Result)
    ensures CompareStages(7, 14, left, right) ==
      if FrequencyScore(left) != FrequencyScore(right) then CompareInt(FrequencyScore(left), FrequencyScore(right))
      else CompareStages(8, 14, left, right)
  {
  }

  // ---------------------------------------------------------------- the stages are weak orders

  lemma {:induction false} CompareTextLaws(x: Text, y: Text, z: Text)
    ensures CompareText(x, y) == -CompareText(y, x)
    ensures CompareText(x, y) == 0 <==> x == y
    ensures CompareText(x, y) <= 0 && CompareText(y, z) <= 0 ==> CompareText(x, z) <= 0
    decreases |x|
  {
    if x != [] && y != [] && z != [] {
      CompareTextLaws(x[1..], y[1..], z[1..]);
      assert x == [x[0]] + x[1..] && y == [y[0]] + y[1..];
    } else if x != [] && y != [] {
      CompareTextLaws(x[1..], y[1..], []);
      assert x == [x[0]] + x[1..] && y == [y[0]] + y[1..];
    }
  }

  lemma StageLaws(stage: nat, x: Result, y: Result, z: Result)
    ensures StageCompare(stage, x, y) == -StageCompare(stage, y, x)
    ensures StageCompare(stage, x, y) <= 0 && StageCompare(stage, y, z) <= 0 ==> StageCompare(stage, x, z) <= 0
  {
    if stage == 11 {
      CompareTextLaws(x.primarySpelling, y.primarySpelling, z.primarySpelling);
    } else if stage == 13 {
      CompareTextLaws(x.definitions, y.definitions, z.definitions);
    }
  }

  lemma {:induction false} StagesLaws(from: nat, upto: nat, x: Result, y: Result, z: Result)
    ensures CompareStages(from, upto, x, y) == -CompareStages(from, upto, y, x)
    ensures CompareStages(from, upto, x, y) <= 0 && CompareStages(from, upto, y, z) <= 0
        ==> CompareStages(from, upto, x, z) <= 0
    decreases upto - from
  {
    hide StageCompare;
    if from < upto {
      StageLaws(from, x, y, z);
      StageLaws(from, y, z, x);
      StageLaws(from, z, x, y);
      StagesLaws(from + 1, upto, x, y, z);
    }
  }
}
