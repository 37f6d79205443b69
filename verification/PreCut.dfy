/** The lookup engine cuts the result list on the undecorated order before it decorates anything
    (src/lookup/engine.cpp, src/lookup/decorate.cpp; measured by tools/lookupprobe.cpp). The answer is
    that of decorating, sorting and cutting the whole list. */
module PreCut {
  import opened Basics
  import opened Ranking
  import opened RankingCriteria
  import opened RankingOrder
  import opened StableSorting

  /** An enabled frequency dictionary: rankFor is what its store answers for a spelling and readings. */
  datatype FrequencyDictionary = FrequencyDictionary(name: string, higherIsBetter: bool,
                                                     rankFor: (Text, seq<Text>) -> Option<int>)

  /** An enabled pitch dictionary: what it answers for each reading. */
  datatype PitchDictionary = PitchDictionary(positionsFor: (Text, seq<Text>) -> seq<Option<int>>)

  /** The enabled dictionaries in the user's order. */
  datatype Decorators = Decorators(wordFrequencies: seq<FrequencyDictionary>,
                                   kanjiFrequencies: seq<FrequencyDictionary>, pitchAccents: seq<PitchDictionary>)

  // ---------------------------------------------------------------- decoration

  function HitOf(dictionary: FrequencyDictionary, spelling: Text, readings: seq<Text>): seq<FrequencyHit> {
    var rank := dictionary.rankFor(spelling, readings);
    if rank.Some? then [FrequencyHit(dictionary.name, rank.value, dictionary.higherIsBetter)] else []
  }

  /** The hits of the dictionaries that answer, in their order. */
  function HitsOf(dictionaries: seq<FrequencyDictionary>, spelling: Text, readings: seq<Text>): seq<FrequencyHit> {
    if dictionaries == [] then []
    else HitOf(dictionaries[0], spelling, readings) + HitsOf(dictionaries[1..], spelling, readings)
  }

  /** The frequency a kanji record brings along. */
  function OwnHit(r: Result): seq<FrequencyHit> {
    if r.kanjiFrequency.Some? && r.kanjiFrequency.value > 0
    then [FrequencyHit(r.dictionaryName, r.kanjiFrequency.value, false)] else []
  }

  function DecorateFrequencies(d: Decorators, r: Result): Result {
    if r.isKanji then
      r.(frequencies := r.frequencies + OwnHit(r) + HitsOf(d.kanjiFrequencies, r.primarySpelling, []),
         priorityRank := 0)
    else
      r.(frequencies := r.frequencies + HitsOf(d.wordFrequencies, r.primarySpelling, r.readings),
         priorityRank := if d.wordFrequencies != [] then 0 else r.priorityRank)
  }

  predicate Answers(positions: seq<Option<int>>) {
    exists i :: 0 <= i < |positions| && positions[i].Some?
  }

  /** What the first dictionary that knows a position of some reading answers. */
  function PitchOf(dictionaries: seq<PitchDictionary>, spelling: Text, readings: seq<Text>): Option<seq<Option<int>>> {
    if dictionaries == [] then None
    else if Answers(dictionaries[0].positionsFor(spelling, readings)) then
      Some(dictionaries[0].positionsFor(spelling, readings))
    else PitchOf(dictionaries[1..], spelling, readings)
  }

  function DecoratePitch(d: Decorators, r: Result): Result {
    var answer := PitchOf(d.pitchAccents, r.primarySpelling, r.readings);
    if answer.Some? then r.(pitchPositions := answer.value) else r
  }

  function FrequenciesOn(d: Decorators, list: seq<Result>): seq<Result> {
    seq(|list|, i requires 0 <= i < |list| => DecorateFrequencies(d, list[i]))
  }

  function PitchOn(d: Decorators, list: seq<Result>): seq<Result> {
    seq(|list|, i requires 0 <= i < |list| => DecoratePitch(d, list[i]))
  }

  function Cut(list: seq<Result>, maxResults: int): seq<Result> {
    if maxResults > 0 && |list| > maxResults then list[..maxResults] else list
  }

  /** The order the pre-cut has to reproduce: decorate everything, sort, cut. */
  function Reference(d: Decorators, list: seq<Result>, maxResults: int): seq<Result> {
    Cut(Sort(LessThan, PitchOn(d, FrequenciesOn(d, list))), maxResults)
  }

  // ---------------------------------------------------------------- the memo key

  const SPELLING_SEPARATOR: CodeUnit := 0x1f
  const READING_SEPARATOR: CodeUnit := 0x1e

  function Join(readings: seq<Text>): Text {
    if readings == [] then []
    else if |readings| == 1 then readings[0]
    else readings[0] + [READING_SEPARATOR] + Join(readings[1..])
  }

  function HeadwordKey(r: Result): Text {
    r.primarySpelling + [SPELLING_SEPARATOR] + Join(r.readings)
  }

  /** No headword of the list carries a separator. */
  predicate SeparatorFree(r: Result) {
    && SPELLING_SEPARATOR !in r.primarySpelling
    && forall i :: 0 <= i < |r.readings| ==> READING_SEPARATOR !in r.readings[i]
  }

  lemma {:induction false} SplitOnce(a: Text, b: Text, c: Text, e: Text, separator: CodeUnit)
    requires separator !in a && separator !in c
    requires a + [separator] + b == c + [separator] + e
    ensures a == c && b == e
    decreases |a|
  {
    var left, right := a + [separator] + b, c + [separator] + e;
    assert left[0] == right[0];
    assert a == [] <==> c == [];
    if a == [] {
      assert b == left[1..] && e == right[1..];
    } else {
      assert left[1..] == a[1..] + [separator] + b && right[1..] == c[1..] + [separator] + e;
      SplitOnce(a[1..], b, c[1..], e, separator);
      assert a == [a[0]] + a[1..] && c == [c[0]] + c[1..];
    }
  }

  lemma JoinHasSeparator(readings: seq<Text>)
    requires |readings| > 1
    ensures READING_SEPARATOR in Join(readings)
  {
    assert Join(readings)[|readings[0]|] == READING_SEPARATOR;
  }

  lemma {:induction false} JoinInjective(a: seq<Text>, b: seq<Text>)
    requires forall i :: 0 <= i < |a| ==> READING_SEPARATOR !in a[i]
    requires forall i :: 0 <= i < |b| ==> READING_SEPARATOR !in b[i]
    requires a != [] && b != [] && Join(a) == Join(b)
    ensures a == b
    decreases |a|
  {
    if |a| > 1 {
      JoinHasSeparator(a);
    }
    if |b| > 1 {
      JoinHasSeparator(b);
    }
    assert |a| == 1 <==> |b| == 1;
    if |a| > 1 {
      SplitOnce(a[0], Join(a[1..]), b[0], Join(b[1..]), READING_SEPARATOR);
      JoinInjective(a[1..], b[1..]);
      assert a == [a[0]] + a[1..] && b == [b[0]] + b[1..];
    }
  }

  /** The memo key names the headword, except that no reading and one empty reading share a key. */
  lemma HeadwordKeyExact(x: Result, y: Result)
    requires SeparatorFree(x) && SeparatorFree(y)
    ensures HeadwordKey(x) == HeadwordKey(y) <==>
      x.primarySpelling == y.primarySpelling
      && (|| x.readings == y.readings
          || (x.readings == [] && y.readings == [[]])
          || (x.readings == [[]] && y.readings == []))
  {
    if HeadwordKey(x) == HeadwordKey(y) {
      SplitOnce(x.primarySpelling, Join(x.readings), y.primarySpelling, Join(y.readings), SPELLING_SEPARATOR);
      if x.readings != [] && y.readings != [] {
        JoinInjective(x.readings, y.readings);
      } else if x.readings != [] {
        EmptyJoin(x.readings);
      } else if y.readings != [] {
        EmptyJoin(y.readings);
      }
    }
  }

  lemma EmptyJoin(readings: seq<Text>)
    requires readings != [] && Join(readings) == []
    ensures readings == [[]]
  {
    if |readings| > 1 {
      JoinHasSeparator(readings);
    }
  }

  /** Results that share a memo key get the same frequency hits. */
  ghost predicate MemoFaithful(d: Decorators, list: seq<Result>) {
    forall x, y :: x in list && y in list && !x.isKanji && !y.isKanji && HeadwordKey(x) == HeadwordKey(y) ==>
      HitsOf(d.wordFrequencies, x.primarySpelling, x.readings)
      == HitsOf(d.wordFrequencies, y.primarySpelling, y.readings)
  }

  /** Separator-free headwords make the memo faithful, when an empty reading is as good as none. */
  lemma SeparatorFreeIsFaithful(d: Decorators, list: seq<Result>)
    requires forall x :: x in list ==> SeparatorFree(x)
    requires forall spelling :: HitsOf(d.wordFrequencies, spelling, []) == HitsOf(d.wordFrequencies, spelling, [[]])
    ensures MemoFaithful(d, list)
  {
    forall x, y | x in list && y in list && HeadwordKey(x) == HeadwordKey(y)
      ensures HitsOf(d.wordFrequencies, x.primarySpelling, x.readings)
           == HitsOf(d.wordFrequencies, y.primarySpelling, y.readings)
    {
      HeadwordKeyExact(x, y);
    }
  }

  // ---------------------------------------------------------------- the pipeline

  /** Asks every dictionary in turn. */
  method CollectHits(dictionaries: seq<FrequencyDictionary>, spelling: Text, readings: seq<Text>)
    returns (hits: seq<FrequencyHit>)
    ensures hits == HitsOf(dictionaries, spelling, readings)
  {
    hits := [];
    for n := 0 to |dictionaries|
      invariant hits + HitsOf(dictionaries[n..], spelling, readings) == HitsOf(dictionaries, spelling, readings)
    {
      assert dictionaries[n..][1..] == dictionaries[n + 1..];
      var rank := dictionaries[n].rankFor(spelling, readings);
      if rank.Some? {
        hits := hits + [FrequencyHit(dictionaries[n].name, rank.value, dictionaries[n].higherIsBetter)];
      }
    }
  }

  /** The first result whose hits the memo keeps under key. */
  function FirstOf(list: seq<Result>, key: Text): Option<Result> {
    if list == [] then None
    else if FirstOf(Front(list), key).Some? then FirstOf(Front(list), key)
    else if !Last(list).isKanji && HeadwordKey(Last(list)) == key then Some(Last(list)) else None
  }

  /** The result whose headword the dictionaries are asked for, after the results before r. */
  function AskedFor(before: seq<Result>, r: Result): Result {
    var first := FirstOf(before, HeadwordKey(r));
    if first.Some? then first.value else r
  }

  function Memoised(d: Decorators, before: seq<Result>, r: Result): Result {
    if r.isKanji then DecorateFrequencies(d, r)
    else
      var asked := AskedFor(before, r);
      r.(frequencies := r.frequencies + HitsOf(d.wordFrequencies, asked.primarySpelling, asked.readings),
         priorityRank := if d.wordFrequencies != [] then 0 else r.priorityRank)
  }

  function MemoisedOn(d: Decorators, list: seq<Result>): seq<Result> {
    seq(|list|, i requires 0 <= i < |list| => Memoised(d, list[..i], list[i]))
  }

  /** The memoised decoration loop: a result gets the hits of the first one with its key. */
  method DecorateList(d: Decorators, list: seq<Result>) returns (decorated: seq<Result>)
    ensures decorated == MemoisedOn(d, list)
  {
    hide HeadwordKey;
    decorated := [];
    var memo: map<Text, seq<FrequencyHit>> := map[];
    for n := 0 to |list|
      invariant decorated == MemoisedOn(d, list)[..n]
      invariant forall key :: key in memo <==> FirstOf(list[..n], key).Some?
      invariant forall key :: key in memo ==>
        var first := FirstOf(list[..n], key).value;
        memo[key] == HitsOf(d.wordFrequencies, first.primarySpelling, first.readings)
    {
      var result := list[n];
      assert list[..n + 1] == list[..n] + [result] && Front(list[..n + 1]) == list[..n];
      if result.isKanji {
        var own := if result.kanjiFrequency.Some? && result.kanjiFrequency.value > 0
                   then [FrequencyHit(result.dictionaryName, result.kanjiFrequency.value, false)] else [];
        var hits := CollectHits(d.kanjiFrequencies, result.primarySpelling, []);
        decorated := decorated + [result.(frequencies := result.frequencies + own + hits, priorityRank := 0)];
      } else {
        var key := HeadwordKey(result);
        if key !in memo {
          var hits := CollectHits(d.wordFrequencies, result.primarySpelling, result.readings);
          memo := memo[key := hits];
        }
        var rank := if d.wordFrequencies != [] then 0 else result.priorityRank;
        decorated := decorated + [result.(frequencies := result.frequencies + memo[key], priorityRank := rank)];
      }
    }
  }

  lemma {:induction false} FirstIsMember(list: seq<Result>, key: Text)
    ensures var first := FirstOf(list, key);
      first.Some? ==> first.value in list && !first.value.isKanji && HeadwordKey(first.value) == key
  {
    if list != [] {
      FirstIsMember(Front(list), key);
    }
  }

  /** Whichever result asks, the memo answers for the first one of the whole list. */
  lemma {:induction false} FirstStays(list: seq<Result>, i: nat)
    requires i < |list| && !list[i].isKanji
    ensures FirstOf(list, HeadwordKey(list[i])) == Some(AskedFor(list[..i], list[i]))
    decreases |list|
  {
    hide HeadwordKey;
    if i == |list| - 1 {
      assert list[..i] == Front(list);
    } else {
      assert Front(list)[i] == list[i] && Front(list)[..i] == list[..i];
      FirstStays(Front(list), i);
    }
  }

  /** The memo changes no result exactly when results that share a key get the same hits. */
  lemma MemoChangesNothing(d: Decorators, list: seq<Result>)
    ensures MemoisedOn(d, list) == FrequenciesOn(d, list) <==> MemoFaithful(d, list)
  {
    hide HeadwordKey, FirstOf, AskedFor, HitsOf;
    if MemoFaithful(d, list) {
      forall i | 0 <= i < |list| && !list[i].isKanji
        ensures Memoised(d, list[..i], list[i]) == DecorateFrequencies(d, list[i])
      {
        FirstStays(list, i);
        FirstIsMember(list, HeadwordKey(list[i]));
      }
      assert MemoisedOn(d, list) == FrequenciesOn(d, list);
    } else if MemoisedOn(d, list) == FrequenciesOn(d, list) {
      forall x, y | x in list && y in list && !x.isKanji && !y.isKanji && HeadwordKey(x) == HeadwordKey(y)
        ensures HitsOf(d.wordFrequencies, x.primarySpelling, x.readings)
             == HitsOf(d.wordFrequencies, y.primarySpelling, y.readings)
      {
        var i :| 0 <= i < |list| && list[i] == x;
        var j :| 0 <= j < |list| && list[j] == y;
        GetsHitsOfFirst(d, list, i);
        GetsHitsOfFirst(d, list, j);
      }
      assert false;
    }
  }

  lemma GetsHitsOfFirst(d: Decorators, list: seq<Result>, i: nat)
    requires i < |list| && !list[i].isKanji && MemoisedOn(d, list) == FrequenciesOn(d, list)
    ensures var first := FirstOf(list, HeadwordKey(list[i]));
      first.Some? && HitsOf(d.wordFrequencies, first.value.primarySpelling, first.value.readings)
                  == HitsOf(d.wordFrequencies, list[i].primarySpelling, list[i].readings)
  {
    hide HeadwordKey, FirstOf, AskedFor, HitsOf;
    FirstStays(list, i);
    var r, asked := list[i], AskedFor(list[..i], list[i]);
    var mine, its := HitsOf(d.wordFrequencies, r.primarySpelling, r.readings),
                     HitsOf(d.wordFrequencies, asked.primarySpelling, asked.readings);
    assert MemoisedOn(d, list)[i].frequencies == r.frequencies + its;
    assert FrequenciesOn(d, list)[i].frequencies == r.frequencies + mine;
    assert mine == (r.frequencies + mine)[|r.frequencies|..] == (r.frequencies + its)[|r.frequencies|..] == its;
  }

  /** The cut on the undecorated order: sorts, keeps maxResults and the tie run that touches the cut. */
  method UndecoratedCut(list: seq<Result>, maxResults: int) returns (kept: seq<Result>)
    requires 0 < maxResults < |list|
    ensures var sorted := Sort(LessThanUndecorated, list);
      |sorted| == |list| && maxResults <= |kept| <= |list| && kept == sorted[..|kept|]
      && (|kept| < |list| ==> CompareUndecorated(sorted[|kept| - 1], sorted[|kept|]) != 0)
  {
    var sorted := Sort(LessThanUndecorated, list);
    UndecoratedWeakOrder(list);
    SortIsStable(LessThanUndecorated, list);
    SameContents(list, sorted);
    var keep := maxResults;
    while keep < |sorted| && CompareUndecorated(sorted[keep - 1], sorted[keep]) == 0
      invariant maxResults <= keep <= |sorted|
    {
      keep := keep + 1;
    }
    kept := sorted[..keep];
  }

  /** Steps one to three: the undecorated cut, the memoised decoration, the sort and the cut. */
  method RankResults(d: Decorators, list: seq<Result>, maxResults: int) returns (results: seq<Result>)
    requires MemoFaithful(d, list) && WeakOrderOn(LessThan, FrequenciesOn(d, list))
    ensures results == Cut(Sort(LessThan, FrequenciesOn(d, list)), maxResults)
  {
    hide CompareUndecorated;
    hide CompareResults;
    hide DecorateFrequencies;
    hide WeakOrderOn;
    hide Sort;
    var survivors := list;
    if maxResults > 0 && |list| > maxResults {
      survivors := UndecoratedCut(list, maxResults);
      SurvivorsAreMembers(list, survivors);
      PreCutEquivalence(d, list, maxResults, |survivors|);
    }
    MemoChangesNothing(d, survivors);
    var decorated := DecorateList(d, survivors);
    results := Sort(LessThan, decorated);
    if maxResults > 0 && |results| > maxResults {
      results := results[..maxResults];
    }
  }

  /** The engine's order over one result list, and the pitch positions over what is left of it. On
      every list it answers what decorating, sorting and cutting the whole list answers, as long as
      the memo is faithful and the sort is called with an order. */
  method OrderResults(d: Decorators, list: seq<Result>, maxResults: int) returns (results: seq<Result>)
    requires MemoFaithful(d, list) && WeakOrderOn(LessThan, FrequenciesOn(d, list))
    ensures results == Reference(d, list, maxResults)
  {
    hide CompareResults;
    hide WeakOrderOn;
    hide Sort;
    hide MemoFaithful;
    var ranked := RankResults(d, list, maxResults);
    PitchCommutes(d, FrequenciesOn(d, list), maxResults);
    results := [];
    for n := 0 to |ranked|
      invariant results == PitchOn(d, ranked[..n])
    {
      var decorated := AttachPitch(d, ranked[n]);
      results := results + [decorated];
      assert ranked[..n + 1] == ranked[..n] + [ranked[n]];
    }
    assert ranked[..|ranked|] == ranked;
  }

  // ---------------------------------------------------------------- when it may be called

  function Names(dictionaries: seq<FrequencyDictionary>): seq<string> {
    if dictionaries == [] then [] else [dictionaries[0].name] + Names(dictionaries[1..])
  }

  lemma {:induction false} HitsAreDecorated(dictionaries: seq<FrequencyDictionary>, spelling: Text, readings: seq<Text>)
    ensures DecoratedBy(Names(dictionaries), HitsOf(dictionaries, spelling, readings))
    ensures |Names(dictionaries)| == |dictionaries|
  {
    if dictionaries != [] {
      HitsAreDecorated(dictionaries[1..], spelling, readings);
      assert Names(dictionaries)[1..] == Names(dictionaries[1..]);
      var rest := HitsOf(dictionaries[1..], spelling, readings);
      if dictionaries[0].rankFor(spelling, readings).Some? {
        assert HitsOf(dictionaries, spelling, readings)[1..] == rest;
      } else {
        assert HitsOf(dictionaries, spelling, readings) == rest;
      }
    }
  }

  /** The dictionaries a result's hits can come from: the enabled ones, and before them, for a kanji result,
      the dictionary of its own record. */
  function SourcesOf(d: Decorators, r: Result): seq<string> {
    if r.isKanji then (if OwnHit(r) != [] then [r.dictionaryName] else []) + Names(d.kanjiFrequencies)
    else Names(d.wordFrequencies)
  }

  /** What a result without frequencies is decorated with names its sources in order. */
  lemma DecoratedBySources(d: Decorators, r: Result)
    requires r.frequencies == []
    ensures DecoratedBy(SourcesOf(d, r), DecorateFrequencies(d, r).frequencies)
  {
    var dictionaries := if r.isKanji then d.kanjiFrequencies else d.wordFrequencies;
    var readings := if r.isKanji then [] else r.readings;
    var hits, names := HitsOf(dictionaries, r.primarySpelling, readings), Names(dictionaries);
    HitsAreDecorated(dictionaries, r.primarySpelling, readings);
    if r.isKanji && OwnHit(r) != [] {
      assert DecorateFrequencies(d, r).frequencies == OwnHit(r) + hits;
      assert (OwnHit(r) + hits)[1..] == hits && ([r.dictionaryName] + names)[1..] == names;
    } else {
      assert DecorateFrequencies(d, r).frequencies == hits;
      assert SourcesOf(d, r) == names;
    }
  }

  /** Each hit is what one dictionary answers, under its name and the way it ranks, and each dictionary that
      answers has one; the hits are in the dictionaries' order. */
  lemma {:induction false} HitsAreAnswers(dictionaries: seq<FrequencyDictionary>, spelling: Text, readings: seq<Text>)
    ensures forall h :: h in HitsOf(dictionaries, spelling, readings) <==>
      exists i :: 0 <= i < |dictionaries| && dictionaries[i].rankFor(spelling, readings) == Some(h.rank)
                  && dictionaries[i].name == h.dictionaryName && dictionaries[i].higherIsBetter == h.higherIsBetter
  {
    if dictionaries != [] {
      HitsAreAnswers(dictionaries[1..], spelling, readings);
      forall h: FrequencyHit
        ensures h in HitsOf(dictionaries, spelling, readings) <==>
          (h in HitOf(dictionaries[0], spelling, readings) || h in HitsOf(dictionaries[1..], spelling, readings))
        ensures h in HitOf(dictionaries[0], spelling, readings) <==>
          (&& dictionaries[0].rankFor(spelling, readings) == Some(h.rank)
           && dictionaries[0].name == h.dictionaryName && dictionaries[0].higherIsBetter == h.higherIsBetter)
      {
      }
      assert forall i :: 0 < i < |dictionaries| ==> dictionaries[i] == dictionaries[1..][i - 1];
      assert forall i :: 0 <= i < |dictionaries| - 1 ==> dictionaries[1..][i] == dictionaries[i + 1];
    }
  }

  /** With a frequency dictionary enabled, a word it covers comes before one it does not, whatever priority
      rank the records hold: of two words tied before, the covered one is first after the decoration. */
  lemma DecoratedCoveredFirst(d: Decorators, x: Result, y: Result)
    requires !x.isKanji && !y.isKanji && x.frequencies == [] && y.frequencies == [] && AlikeBefore(7, x, y)
    requires d.wordFrequencies != []
    requires HitsOf(d.wordFrequencies, y.primarySpelling, y.readings) == []
    requires var hits := HitsOf(d.wordFrequencies, x.primarySpelling, x.readings);
      hits != [] && hits[0].rank < ABSENT_SCORE && (hits[0].higherIsBetter ==> hits[0].rank > 0)
    ensures LessThan(DecorateFrequencies(d, x), DecorateFrequencies(d, y))
  {
    StillAlike(d, x, y);
    CoveredFirst(DecorateFrequencies(d, x), DecorateFrequencies(d, y));
  }

  /** Without one the priority rank of the records decides. */
  lemma UndecoratedPriorityFirst(d: Decorators, x: Result, y: Result)
    requires !x.isKanji && !y.isKanji && x.frequencies == [] && y.frequencies == [] && AlikeBefore(7, x, y)
    requires d.wordFrequencies == []
    requires 0 < x.priorityRank < ABSENT_SCORE && (y.priorityRank <= 0 || x.priorityRank < y.priorityRank)
    ensures LessThan(DecorateFrequencies(d, x), DecorateFrequencies(d, y))
  {
    StillAlike(d, x, y);
    PriorityRankFirst(DecorateFrequencies(d, x), DecorateFrequencies(d, y));
  }

  /** Of two kanji the lower frequency rank their records hold; one with such a rank before one that neither
      its record nor a kanji dictionary ranks. */
  lemma KanjiRankFirst(d: Decorators, x: Result, y: Result)
    requires x.isKanji && y.isKanji && x.frequencies == [] && y.frequencies == [] && AlikeBefore(7, x, y)
    requires x.kanjiFrequency.Some? && 0 < x.kanjiFrequency.value < ABSENT_SCORE
    requires if y.kanjiFrequency.Some? && y.kanjiFrequency.value > 0
             then x.kanjiFrequency.value < y.kanjiFrequency.value
             else HitsOf(d.kanjiFrequencies, y.primarySpelling, []) == []
    ensures LessThan(DecorateFrequencies(d, x), DecorateFrequencies(d, y))
  {
    StillAlike(d, x, y);
    if y.kanjiFrequency.Some? && y.kanjiFrequency.value > 0 {
      LowerRankFirst(DecorateFrequencies(d, x), DecorateFrequencies(d, y));
    } else {
      CoveredFirst(DecorateFrequencies(d, x), DecorateFrequencies(d, y));
    }
  }

  lemma StillAlike(d: Decorators, x: Result, y: Result)
    requires AlikeBefore(7, x, y)
    ensures AlikeBefore(7, DecorateFrequencies(d, x), DecorateFrequencies(d, y))
  {
    hide CompareUndecorated, CompareStages;
    UndecoratedIsStages(x, y);
    UndecoratedIsStages(DecorateFrequencies(d, x), DecorateFrequencies(d, y));
    DecorationKeepsUndecorated(d, x, y);
  }

  /** The ordering may be called, and so answers the reference order, on every list of results that come
      without frequencies, with separator-free headwords and at most one frequency source each, when no
      dictionary tells an empty reading from none. */
  lemma MayOrder(d: Decorators, list: seq<Result>)
    requires forall r :: r in list ==> r.frequencies == [] && |SourcesOf(d, r)| <= 1 && SeparatorFree(r)
    requires forall spelling :: HitsOf(d.wordFrequencies, spelling, []) == HitsOf(d.wordFrequencies, spelling, [[]])
    ensures MemoFaithful(d, list) && WeakOrderOn(LessThan, FrequenciesOn(d, list))
  {
    hide CompareResults, DecorateFrequencies, SourcesOf, DecoratedBy, SeparatorFree, HeadwordKey;
    SeparatorFreeIsFaithful(d, list);
    var decorated := FrequenciesOn(d, list);
    forall x | x in decorated
      ensures |x.frequencies| <= 1
    {
      var i :| 0 <= i < |list| && decorated[i] == x;
      assert list[i] in list;
      DecoratedBySources(d, list[i]);
      HitsWithin(SourcesOf(d, list[i]), x.frequencies);
    }
    FullWeakOrder(decorated);
  }

  lemma SurvivorsAreMembers(list: seq<Result>, kept: seq<Result>)
    requires |kept| <= |Sort(LessThanUndecorated, list)| && kept == Sort(LessThanUndecorated, list)[..|kept|]
    ensures forall r :: r in kept ==> r in list
  {
    UndecoratedWeakOrder(list);
    SortIsStable(LessThanUndecorated, list);
    SameContents(list, Sort(LessThanUndecorated, list));
  }

  // ---------------------------------------------------------------- why it is the same

  lemma DecorationKeepsUndecorated(d: Decorators, x: Result, y: Result)
    ensures CompareUndecorated(DecorateFrequencies(d, x), DecorateFrequencies(d, y)) == CompareUndecorated(x, y)
  {
    UndecoratedReads(x, y, DecorateFrequencies(d, x), DecorateFrequencies(d, y));
  }

  /** Criteria 1 to 7 read neither the frequencies nor the priority rank. */
  lemma UndecoratedReads(x: Result, y: Result, x': Result, y': Result)
    requires x' == x.(frequencies := x'.frequencies, priorityRank := x'.priorityRank)
    requires y' == y.(frequencies := y'.frequencies, priorityRank := y'.priorityRank)
    ensures CompareUndecorated(x', y') == CompareUndecorated(x, y)
  {
  }

  /** A result strictly worse before the decoration is strictly worse after it. */
  lemma UndecoratedDecides(d: Decorators, x: Result, y: Result)
    requires LessThanUndecorated(x, y)
    ensures LessThan(DecorateFrequencies(d, x), DecorateFrequencies(d, y))
    ensures !LessThan(DecorateFrequencies(d, y), DecorateFrequencies(d, x))
  {
    hide CompareUndecorated;
    DecorationKeepsUndecorated(d, x, y);
    DecorationKeepsUndecorated(d, y, x);
    UndecoratedLaws(x, y, x);
  }

  /** The ties of the full order lie within the ties of the undecorated one. */
  lemma {:induction false} TiesWithinTies(d: Decorators, u: Result, a: seq<Result>)
    ensures TiedWith(LessThan, DecorateFrequencies(d, u), FrequenciesOn(d, a))
         == TiedWith(LessThan, DecorateFrequencies(d, u), FrequenciesOn(d, TiedWith(LessThanUndecorated, u, a)))
  {
    hide CompareUndecorated;
    hide CompareResults;
    hide DecorateFrequencies;
    if a != [] {
      var x, head, rest := DecorateFrequencies(d, u), a[0], a[1..];
      var ties := TiedWith(LessThanUndecorated, u, rest);
      TiesWithinTies(d, u, rest);
      assert FrequenciesOn(d, a)[0] == DecorateFrequencies(d, head);
      assert FrequenciesOn(d, a)[1..] == FrequenciesOn(d, rest);
      if Tied(LessThanUndecorated, u, head) {
        assert FrequenciesOn(d, [head] + ties) == [DecorateFrequencies(d, head)] + FrequenciesOn(d, ties);
        assert FrequenciesOn(d, [head] + ties)[1..] == FrequenciesOn(d, ties);
        assert FrequenciesOn(d, [head] + ties)[0] == DecorateFrequencies(d, head);
      } else {
        if LessThanUndecorated(u, head) {
          UndecoratedDecides(d, u, head);
        } else {
          UndecoratedDecides(d, head, u);
        }
        assert !Tied(LessThan, x, DecorateFrequencies(d, head));
        assert [] + ties == ties;
      }
    }
  }

  lemma {:induction false} DecoratedContents(d: Decorators, a: seq<Result>, r: Result)
    ensures multiset(FrequenciesOn(d, a + [r])) == multiset(FrequenciesOn(d, a)) + multiset{DecorateFrequencies(d, r)}
  {
    assert FrequenciesOn(d, a + [r]) == FrequenciesOn(d, a) + [DecorateFrequencies(d, r)];
  }

  /** Decorating a permutation is a permutation of the decoration. */
  lemma {:induction false} DecoratedPermutation(d: Decorators, a: seq<Result>, b: seq<Result>)
    requires multiset(a) == multiset(b)
    ensures multiset(FrequenciesOn(d, a)) == multiset(FrequenciesOn(d, b))
    decreases |a|
  {
    hide DecorateFrequencies;
    hide FrequenciesOn;
    SameContents(a, b);
    if a == [] {
      assert b == [];
    } else {
      var x := Last(a);
      assert x in a;
      var left, right := SplitAt(b, x);
      assert a == Front(a) + [x];
      assert multiset(Front(a)) == multiset(left + right);
      DecoratedPermutation(d, Front(a), left + right);
      DecoratedContents(d, Front(a), x);
      DecoratedMiddle(d, left, x, right);
    }
  }

  lemma SplitAt(s: seq<Result>, x: Result) returns (left: seq<Result>, right: seq<Result>)
    requires x in s
    ensures s == left + [x] + right
    ensures multiset(left + right) == multiset(s) - multiset{x}
  {
    var i :| 0 <= i < |s| && s[i] == x;
    left, right := s[..i], s[i + 1..];
    assert s == left + [x] + right;
  }

  lemma DecoratedMiddle(d: Decorators, left: seq<Result>, x: Result, right: seq<Result>)
    ensures multiset(FrequenciesOn(d, left + [x] + right))
         == multiset(FrequenciesOn(d, left + right)) + multiset{DecorateFrequencies(d, x)}
  {
    hide DecorateFrequencies;
    assert FrequenciesOn(d, left + [x] + right)
        == FrequenciesOn(d, left) + [DecorateFrequencies(d, x)] + FrequenciesOn(d, right);
    assert FrequenciesOn(d, left + right) == FrequenciesOn(d, left) + FrequenciesOn(d, right);
  }

  /** Sorting on the undecorated order first does not change the result of the full sort. */
  lemma SortAfterSort(d: Decorators, xs: seq<Result>, sorted: seq<Result>)
    requires WeakOrderOn(LessThan, FrequenciesOn(d, xs)) && IsStableSort(LessThanUndecorated, xs, sorted)
    ensures Sort(LessThan, FrequenciesOn(d, sorted)) == Sort(LessThan, FrequenciesOn(d, xs))
    ensures WeakOrderOn(LessThan, FrequenciesOn(d, sorted))
  {
    hide CompareUndecorated;
    hide CompareResults;
    hide DecorateFrequencies;
    var full, again := FrequenciesOn(d, xs), FrequenciesOn(d, sorted);
    DecoratedPermutation(d, xs, sorted);
    SameContents(full, again);
    WeakOrderOnPart(LessThan, full, again);
    SameContents(xs, sorted);
    forall x | x in full || x in again
      ensures TiedWith(LessThan, x, full) == TiedWith(LessThan, x, again)
    {
      var i :| 0 <= i < |full| && full[i] == x;
      var u := xs[i];
      assert u in xs;
      assert TiedWith(LessThanUndecorated, u, xs) == TiedWith(LessThanUndecorated, u, sorted);
      TiesWithinTies(d, u, xs);
      TiesWithinTies(d, u, sorted);
    }
    SortsAgree(full, again);
  }

  lemma SortsAgree(a: seq<Result>, b: seq<Result>)
    requires WeakOrderOn(LessThan, a) && WeakOrderOn(LessThan, b)
    requires SameTies(LessThan, a, b) && multiset(a) == multiset(b)
    ensures Sort(LessThan, b) == Sort(LessThan, a)
  {
    hide CompareResults;
    hide WeakOrderOn;
    hide Sorted;
    SortIsStable(LessThan, a);
    SortIsStable(LessThan, b);
    SameContents(a, b);
    SameContents(b, Sort(LessThan, b));
    SameTiesChain(a, b, Sort(LessThan, b));
    StableSortUnique(LessThan, a, Sort(LessThan, a), Sort(LessThan, b));
  }

  lemma SameTiesChain(a: seq<Result>, b: seq<Result>, c: seq<Result>)
    requires SameTies(LessThan, a, b) && SameTies(LessThan, b, c)
    requires forall x :: x in a <==> x in b
    requires forall x :: x in b <==> x in c
    ensures SameTies(LessThan, a, c)
  {
  }

  ghost predicate AllLess(left: seq<Result>, right: seq<Result>) {
    forall x, y :: x in left && y in right ==> LessThan(x, y) && !LessThan(y, x)
  }

  lemma {:induction false} NoTies(x: Result, s: seq<Result>)
    requires forall y :: y in s ==> !Tied(LessThan, x, y)
    ensures TiedWith(LessThan, x, s) == []
  {
    if s != [] {
      NoTies(x, s[1..]);
    }
  }

  /** A list whose every left element is less than every right one sorts part by part. */
  lemma SortParts(left: seq<Result>, right: seq<Result>)
    requires WeakOrderOn(LessThan, left + right) && AllLess(left, right)
    ensures Sort(LessThan, left + right) == Sort(LessThan, left) + Sort(LessThan, right)
  {
    hide CompareResults;
    var both, a, b := left + right, Sort(LessThan, left), Sort(LessThan, right);
    WeakOrderOnPart(LessThan, both, left);
    WeakOrderOnPart(LessThan, both, right);
    SortIsStable(LessThan, left);
    SortIsStable(LessThan, right);
    SameContents(left, a);
    SameContents(right, b);
    forall i, j | 0 <= i < j < |a + b|
      ensures !LessThan((a + b)[j], (a + b)[i])
    {
      if i < |a| <= j {
        assert a[i] in left && b[j - |a|] in right;
      }
    }
    forall x | x in both || x in a + b
      ensures TiedWith(LessThan, x, both) == TiedWith(LessThan, x, a + b)
    {
      TiedWithConcat(LessThan, x, left, right);
      TiedWithConcat(LessThan, x, a, b);
      assert x in left || x in right;
      if x in left {
        NoTies(x, right);
        NoTies(x, b);
      } else {
        NoTies(x, left);
        NoTies(x, a);
      }
    }
    SortIsStable(LessThan, both);
    StableSortUnique(LessThan, both, Sort(LessThan, both), a + b);
  }

  /** Everything before a strict step of a sorted list is less than everything behind it. */
  lemma StrictStepSplits(d: Decorators, sorted: seq<Result>, k: nat)
    requires 0 < k < |sorted| && Sorted(LessThanUndecorated, sorted)
    requires CompareUndecorated(sorted[k - 1], sorted[k]) != 0
    ensures AllLess(FrequenciesOn(d, sorted[..k]), FrequenciesOn(d, sorted[k..]))
  {
    hide CompareUndecorated;
    hide CompareResults;
    hide DecorateFrequencies;
    var left, right := FrequenciesOn(d, sorted[..k]), FrequenciesOn(d, sorted[k..]);
    forall x, y | x in left && y in right
      ensures LessThan(x, y) && !LessThan(y, x)
    {
      var i :| 0 <= i < |left| && left[i] == x;
      var j :| 0 <= j < |right| && right[j] == y;
      AcrossStep(sorted, k, i, k + j);
      UndecoratedDecides(d, sorted[i], sorted[k + j]);
    }
  }

  lemma AcrossStep(sorted: seq<Result>, k: nat, i: nat, j: nat)
    requires i < k <= j < |sorted| && Sorted(LessThanUndecorated, sorted)
    requires CompareUndecorated(sorted[k - 1], sorted[k]) != 0
    ensures LessThanUndecorated(sorted[i], sorted[j])
  {
    hide CompareUndecorated;
    var a, b, x, y := sorted[k - 1], sorted[k], sorted[i], sorted[j];
    UndecoratedLaws(a, b, a);
    UndecoratedLaws(x, a, b);
    UndecoratedLaws(x, b, y);
    UndecoratedLaws(a, x, a);
    UndecoratedLaws(b, y, b);
    UndecoratedLaws(x, y, x);
    assert i < k - 1 ==> !LessThanUndecorated(a, x);
    assert k < j ==> !LessThanUndecorated(y, b);
    assert !LessThanUndecorated(b, a);
    assert CompareUndecorated(x, b) < 0;
  }

  lemma SortedHalves(d: Decorators, sorted: seq<Result>, k: nat)
    requires WeakOrderOn(LessThan, FrequenciesOn(d, sorted)) && Sorted(LessThanUndecorated, sorted) && 0 < k < |sorted|
    requires CompareUndecorated(sorted[k - 1], sorted[k]) != 0
    ensures |Sort(LessThan, FrequenciesOn(d, sorted[..k]))| == k
    ensures Sort(LessThan, FrequenciesOn(d, sorted[..k])) <= Sort(LessThan, FrequenciesOn(d, sorted))
  {
    hide CompareUndecorated;
    hide CompareResults;
    hide DecorateFrequencies;
    hide WeakOrderOn;
    hide Sort;
    hide Sorted;
    var left, right := sorted[..k], sorted[k..];
    StrictStepSplits(d, sorted, k);
    assert FrequenciesOn(d, sorted) == FrequenciesOn(d, left) + FrequenciesOn(d, right);
    SortParts(FrequenciesOn(d, left), FrequenciesOn(d, right));
    SortLength(FrequenciesOn(d, left));
  }

  /** Cutting on the undecorated order first, at a strict step or not at all, leaves the answer as it
      was. */
  lemma PreCutEquivalence(d: Decorators, list: seq<Result>, maxResults: int, k: nat)
    requires WeakOrderOn(LessThan, FrequenciesOn(d, list)) && 0 < maxResults <= k <= |list|
    requires |Sort(LessThanUndecorated, list)| == |list|
    requires k < |list| ==>
      CompareUndecorated(Sort(LessThanUndecorated, list)[k - 1], Sort(LessThanUndecorated, list)[k]) != 0
    ensures Cut(Sort(LessThan, FrequenciesOn(d, Sort(LessThanUndecorated, list)[..k])), maxResults)
         == Cut(Sort(LessThan, FrequenciesOn(d, list)), maxResults)
  {
    hide CompareUndecorated;
    hide CompareResults;
    hide DecorateFrequencies;
    hide WeakOrderOn;
    hide Sort;
    hide Sorted;
    hide SameTies;
    var sorted := Sort(LessThanUndecorated, list);
    UndecoratedWeakOrder(list);
    SortIsStable(LessThanUndecorated, list);
    SortAfterSort(d, list, sorted);
    if k < |list| {
      SortedHalves(d, sorted, k);
    } else {
      assert sorted[..k] == sorted;
    }
  }

  lemma {:induction false} InsertLength(s: seq<Result>, x: Result)
    ensures |Insert(LessThan, s, x)| == |s| + 1
  {
    hide CompareResults;
    if s != [] && LessThan(x, Last(s)) {
      InsertLength(Front(s), x);
    }
  }

  lemma {:induction false} SortLength(s: seq<Result>)
    ensures |Sort(LessThan, s)| == |s|
  {
    if s != [] {
      SortLength(Front(s));
      InsertLength(Sort(LessThan, Front(s)), Last(s));
    }
  }

  // ---------------------------------------------------------------- the pitch positions

  /** What the ordering answers: the first maxResults, or all, of the decorated results in ascending order, with
      their pitch positions. */
  lemma AnswerIsInOrder(d: Decorators, list: seq<Result>, maxResults: int)
    requires WeakOrderOn(LessThan, FrequenciesOn(d, list))
    ensures exists ranked: seq<Result> ::
      && multiset(ranked) == multiset(FrequenciesOn(d, list)) && Sorted(LessThan, ranked) && |ranked| == |list|
      && Reference(d, list, maxResults) ==
           PitchOn(d, if 0 < maxResults < |list| then ranked[..maxResults] else ranked)
  {
    hide CompareResults, DecorateFrequencies, DecoratePitch, Sort, WeakOrderOn;
    var decorated := FrequenciesOn(d, list);
    SortIsStable(LessThan, decorated);
    PitchCommutes(d, decorated, maxResults);
    SortLength(decorated);
    var ranked := Sort(LessThan, decorated);
    assert Sorted(LessThan, ranked) && multiset(ranked) == multiset(decorated);
  }

  /** The loop over the pitch dictionaries. */
  method AttachPitch(d: Decorators, r: Result) returns (decorated: Result)
    ensures decorated == DecoratePitch(d, r)
  {
    for n := 0 to |d.pitchAccents|
      invariant PitchOf(d.pitchAccents[n..], r.primarySpelling, r.readings)
             == PitchOf(d.pitchAccents, r.primarySpelling, r.readings)
    {
      assert d.pitchAccents[n..][1..] == d.pitchAccents[n + 1..];
      var positions := d.pitchAccents[n].positionsFor(r.primarySpelling, r.readings);
      if Answers(positions) {
        return r.(pitchPositions := positions);
      }
    }
    decorated := r;
  }

  /** The positions attached are those of one dictionary, which knows one, and behind others that know none;
      without such a dictionary the result keeps its own. */
  lemma {:induction false} PitchOfFirst(dictionaries: seq<PitchDictionary>, spelling: Text, readings: seq<Text>)
    returns (i: nat)
    ensures i <= |dictionaries|
    ensures forall k, p :: 0 <= k < i && p in dictionaries[k].positionsFor(spelling, readings) ==> p.None?
    ensures if i < |dictionaries| then
              && (exists p :: p in dictionaries[i].positionsFor(spelling, readings) && p.Some?)
              && PitchOf(dictionaries, spelling, readings) == Some(dictionaries[i].positionsFor(spelling, readings))
            else PitchOf(dictionaries, spelling, readings) == None
  {
    i := 0;
    if dictionaries != [] && !Answers(dictionaries[0].positionsFor(spelling, readings)) {
      var rest := PitchOfFirst(dictionaries[1..], spelling, readings);
      i := rest + 1;
      assert forall k :: 0 < k < |dictionaries| ==> dictionaries[k] == dictionaries[1..][k - 1];
    }
  }

  lemma PitchKeepsOrder(d: Decorators, x: Result, y: Result)
    ensures LessThan(DecoratePitch(d, x), DecoratePitch(d, y)) <==> LessThan(x, y)
  {
    ResultsReads(x, y, DecoratePitch(d, x), DecoratePitch(d, y));
  }

  /** No criterion reads the pitch positions. */
  lemma ResultsReads(x: Result, y: Result, x': Result, y': Result)
    requires x' == x.(pitchPositions := x'.pitchPositions) && y' == y.(pitchPositions := y'.pitchPositions)
    ensures CompareResults(x', y') == CompareResults(x, y)
  {
    SecondaryReads(x, y, x', y', 1);
    assert CompareUndecorated(x', y') == CompareUndecorated(x, y);
    assert CompareTail(x', y') == CompareTail(x, y);
  }

  lemma {:induction false} SecondaryReads(x: Result, y: Result, x': Result, y': Result, i: nat)
    requires x'.frequencies == x.frequencies && y'.frequencies == y.frequencies
    ensures CompareSecondary(x', y', i) == CompareSecondary(x, y, i)
    decreases |x.frequencies| - i
  {
    if i < |x.frequencies| {
      SecondaryReads(x, y, x', y', i + 1);
    }
  }

  lemma {:induction false} PitchInsert(d: Decorators, s: seq<Result>, x: Result)
    ensures Insert(LessThan, PitchOn(d, s), DecoratePitch(d, x)) == PitchOn(d, Insert(LessThan, s, x))
  {
    hide CompareResults;
    hide DecoratePitch;
    if s != [] {
      PitchKeepsOrder(d, x, Last(s));
      assert Last(PitchOn(d, s)) == DecoratePitch(d, Last(s));
      assert Front(PitchOn(d, s)) == PitchOn(d, Front(s));
      if LessThan(x, Last(s)) {
        PitchInsert(d, Front(s), x);
      }
    }
  }

  lemma {:induction false} PitchSort(d: Decorators, s: seq<Result>)
    ensures Sort(LessThan, PitchOn(d, s)) == PitchOn(d, Sort(LessThan, s))
  {
    hide CompareResults;
    hide DecoratePitch;
    if s != [] {
      PitchSort(d, Front(s));
      assert Front(PitchOn(d, s)) == PitchOn(d, Front(s));
      PitchInsert(d, Sort(LessThan, Front(s)), Last(s));
    }
  }

  /** Attaching the pitch positions after the cut is attaching them before the sort. */
  lemma PitchCommutes(d: Decorators, s: seq<Result>, maxResults: int)
    ensures PitchOn(d, Cut(Sort(LessThan, s), maxResults)) == Cut(Sort(LessThan, PitchOn(d, s)), maxResults)
  {
    hide CompareResults;
    hide DecoratePitch;
    PitchSort(d, s);
  }
}
