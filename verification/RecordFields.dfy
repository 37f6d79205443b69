/** The payload of every record kind: the fields a record is written as, and the record a list of
    fields is read as. The two are inverse (src/dict/codec.cpp). */
module RecordFields {
  import opened Basics
  import opened Cbor
  import opened CborReader
  import opened Records

  function JmdictItems(record: JmdictRecord): seq<Item> {
    [IntItem(record.entryId), TextItem(record.primarySpelling),
     TextsItem(record.primarySpellingOrthographyInfo), TextsItem(record.alternativeSpellings),
     TextListsItem(record.alternativeSpellingsOrthographyInfo), TextsItem(record.readings),
     TextListsItem(record.readingsOrthographyInfo), TextListsItem(record.definitions),
     TagsItem(record.wordClasses), TagsItem(record.fields), TagsItem(record.misc), TagsItem(record.dialects),
     TextListsItem(record.spellingRestrictions), TextListsItem(record.readingRestrictions),
     TextsItem(record.definitionInfo), TextListsItem(record.crossReferences),
     LoanwordsItem(record.loanwordEtymology), TextsItem(record.info), IntItem(record.priorityRank)]
  }

  function JmnedictItems(record: JmnedictRecord): seq<Item> {
    [IntItem(record.entryId), TextItem(record.primarySpelling), TextsItem(record.alternativeSpellings),
     TextsItem(record.readings), TextListsItem(record.definitions), TextListsItem(record.nameTypes)]
  }

  function KanjidicItems(record: KanjidicRecord): seq<Item> {
    [TextsItem(record.definitions), TextsItem(record.onReadings), TextsItem(record.kunReadings),
     TextsItem(record.nanoriReadings), TextsItem(record.radicalNames), IntItem(record.strokeCount),
     IntItem(record.grade), IntItem(record.frequency)]
  }

  function YomitanTermItems(record: YomitanTermRecord): seq<Item> {
    [TextItem(record.primarySpelling), TextItem(record.reading), RealItem(record.popularityScore),
     TextsItem(record.definitions), TextsItem(record.definitionsPlain), TextsItem(record.wordClasses),
     TextsItem(record.definitionTags), TextsItem(record.termTags), ImagesItem(record.images),
     IntItem(record.sequence)]
  }

  function YomitanKanjiItems(record: YomitanKanjiRecord): seq<Item> {
    [TextsItem(record.onReadings), TextsItem(record.kunReadings), TextsItem(record.tags),
     TextsItem(record.definitions), TextsItem(record.stats)]
  }

  function PitchAccentItems(record: PitchAccentRecord): seq<Item> {
    [TextItem(record.spelling), TextItem(record.reading), BytesItem(record.positions)]
  }

  function CustomWordItems(record: CustomWordRecord): seq<Item> {
    [TextItem(record.primarySpelling), TextsItem(record.alternativeSpellings), TextsItem(record.readings),
     TextsItem(record.definitions), TextsItem(record.wordClasses), BoolItem(record.hasUserDefinedWordClass)]
  }

  function CustomNameItems(record: CustomNameRecord): seq<Item> {
    [TextItem(record.primarySpelling), TextItem(record.reading), TextItem(record.nameType),
     TextItem(record.extraInfo), OptionalImageItem(record.image)]
  }

  function FrequencyItems(record: FrequencyRecord): seq<Item> {
    [TextItem(record.spelling), IntItem(record.frequency)]
  }

  function KanjiExamplesItems(record: KanjiExamplesRecord): seq<Item> {
    [TextItem(record.kanji), ExamplesItem(record.examples)]
  }

  function KanjiComponentsItems(record: KanjiComponentsRecord): seq<Item> {
    [TextItem(record.kanji), TextsItem(record.components)]
  }

  ghost function JmdictAt(items: seq<Item>, at: nat): Option<JmdictRecord> {
    if && at + 19 <= |items| && Int32Of(items[at]).Some? && TextOf(items[at + 1]).Some? &&
       TextsOf(items[at + 2]).Some? && TextsOf(items[at + 3]).Some? && TextListsOf(items[at + 4]).Some? &&
       TextsOf(items[at + 5]).Some? && TextListsOf(items[at + 6]).Some? && TextListsOf(items[at + 7]).Some? &&
       TagsOf(items[at + 8]).Some? && TagsOf(items[at + 9]).Some? && TagsOf(items[at + 10]).Some? &&
       TagsOf(items[at + 11]).Some? && TextListsOf(items[at + 12]).Some? && TextListsOf(items[at + 13]).Some? &&
       TextsOf(items[at + 14]).Some? && TextListsOf(items[at + 15]).Some? &&
       LoanwordsOf(items[at + 16]).Some? && TextsOf(items[at + 17]).Some? && Int32Of(items[at + 18]).Some?
    then Some(JmdictRecord(
                Int32Of(items[at]).value, TextOf(items[at + 1]).value, TextsOf(items[at + 2]).value,
                TextsOf(items[at + 3]).value, TextListsOf(items[at + 4]).value, TextsOf(items[at + 5]).value,
                TextListsOf(items[at + 6]).value, TextListsOf(items[at + 7]).value, TagsOf(items[at + 8]).value,
                TagsOf(items[at + 9]).value, TagsOf(items[at + 10]).value, TagsOf(items[at + 11]).value,
                TextListsOf(items[at + 12]).value, TextListsOf(items[at + 13]).value,
                TextsOf(items[at + 14]).value, TextListsOf(items[at + 15]).value,
                LoanwordsOf(items[at + 16]).value, TextsOf(items[at + 17]).value, Int32Of(items[at + 18]).value))
    else None
  }

  ghost function JmnedictAt(items: seq<Item>, at: nat): Option<JmnedictRecord> {
    if && at + 6 <= |items| && Int32Of(items[at]).Some? && TextOf(items[at + 1]).Some? &&
       TextsOf(items[at + 2]).Some? && TextsOf(items[at + 3]).Some? && TextListsOf(items[at + 4]).Some? &&
       TextListsOf(items[at + 5]).Some?
    then Some(JmnedictRecord(
                Int32Of(items[at]).value, TextOf(items[at + 1]).value, TextsOf(items[at + 2]).value,
                TextsOf(items[at + 3]).value, TextListsOf(items[at + 4]).value, TextListsOf(items[at + 5]).value))
    else None
  }

  ghost function KanjidicAt(items: seq<Item>, at: nat): Option<KanjidicRecord> {
    if && at + 8 <= |items| && TextsOf(items[at]).Some? && TextsOf(items[at + 1]).Some? &&
       TextsOf(items[at + 2]).Some? && TextsOf(items[at + 3]).Some? && TextsOf(items[at + 4]).Some? &&
       ByteOf(items[at + 5]).Some? && ByteOf(items[at + 6]).Some? && Int32Of(items[at + 7]).Some?
    then Some(KanjidicRecord(
                TextsOf(items[at]).value, TextsOf(items[at + 1]).value, TextsOf(items[at + 2]).value,
                TextsOf(items[at + 3]).value, TextsOf(items[at + 4]).value, ByteOf(items[at + 5]).value,
                ByteOf(items[at + 6]).value, Int32Of(items[at + 7]).value))
    else None
  }

  ghost function YomitanTermAt(convert: int -> Double, items: seq<Item>, at: nat): Option<YomitanTermRecord> {
    if && at + 10 <= |items| && TextOf(items[at]).Some? && TextOf(items[at + 1]).Some? &&
       RealFrom(convert, items[at + 2]).Some? && TextsOf(items[at + 3]).Some? && TextsOf(items[at + 4]).Some? &&
       TextsOf(items[at + 5]).Some? && TextsOf(items[at + 6]).Some? && TextsOf(items[at + 7]).Some? &&
       ImagesOf(convert, items[at + 8]).Some? && Int32Of(items[at + 9]).Some?
    then Some(YomitanTermRecord(
                TextOf(items[at]).value, TextOf(items[at + 1]).value, RealFrom(convert, items[at + 2]).value,
                TextsOf(items[at + 3]).value, TextsOf(items[at + 4]).value, TextsOf(items[at + 5]).value,
                TextsOf(items[at + 6]).value, TextsOf(items[at + 7]).value,
                ImagesOf(convert, items[at + 8]).value, Int32Of(items[at + 9]).value))
    else None
  }

  ghost function YomitanKanjiAt(items: seq<Item>, at: nat): Option<YomitanKanjiRecord> {
    if && at + 5 <= |items| && TextsOf(items[at]).Some? && TextsOf(items[at + 1]).Some? &&
       TextsOf(items[at + 2]).Some? && TextsOf(items[at + 3]).Some? && TextsOf(items[at + 4]).Some?
    then Some(YomitanKanjiRecord(
                TextsOf(items[at]).value, TextsOf(items[at + 1]).value, TextsOf(items[at + 2]).value,
                TextsOf(items[at + 3]).value, TextsOf(items[at + 4]).value))
    else None
  }

  ghost function PitchAccentAt(items: seq<Item>, at: nat): Option<PitchAccentRecord> {
    if && at + 3 <= |items| && TextOf(items[at]).Some? && TextOf(items[at + 1]).Some? &&
       BytesOf(items[at + 2]).Some?
    then Some(PitchAccentRecord(
                TextOf(items[at]).value, TextOf(items[at + 1]).value, BytesOf(items[at + 2]).value))
    else None
  }

  ghost function CustomWordAt(items: seq<Item>, at: nat): Option<CustomWordRecord> {
    if && at + 6 <= |items| && TextOf(items[at]).Some? && TextsOf(items[at + 1]).Some? &&
       TextsOf(items[at + 2]).Some? && TextsOf(items[at + 3]).Some? && TextsOf(items[at + 4]).Some? &&
       BoolOf(items[at + 5]).Some?
    then Some(CustomWordRecord(
                TextOf(items[at]).value, TextsOf(items[at + 1]).value, TextsOf(items[at + 2]).value,
                TextsOf(items[at + 3]).value, TextsOf(items[at + 4]).value, BoolOf(items[at + 5]).value))
    else None
  }

  ghost function CustomNameAt(convert: int -> Double, items: seq<Item>, at: nat): Option<CustomNameRecord> {
    if && at + 5 <= |items| && TextOf(items[at]).Some? && TextOf(items[at + 1]).Some? &&
       TextOf(items[at + 2]).Some? && TextOf(items[at + 3]).Some? &&
       OptionalImageFrom(convert, items[at + 4]).Some?
    then Some(CustomNameRecord(
                TextOf(items[at]).value, TextOf(items[at + 1]).value, TextOf(items[at + 2]).value,
                TextOf(items[at + 3]).value, OptionalImageFrom(convert, items[at + 4]).value))
    else None
  }

  ghost function FrequencyAt(items: seq<Item>, at: nat): Option<FrequencyRecord> {
    if && at + 2 <= |items| && TextOf(items[at]).Some? && Int32Of(items[at + 1]).Some?
    then Some(FrequencyRecord(
                TextOf(items[at]).value, Int32Of(items[at + 1]).value))
    else None
  }

  ghost function KanjiExamplesAt(items: seq<Item>, at: nat): Option<KanjiExamplesRecord> {
    if && at + 2 <= |items| && TextOf(items[at]).Some? && ExamplesOf(items[at + 1]).Some?
    then Some(KanjiExamplesRecord(
                TextOf(items[at]).value, ExamplesOf(items[at + 1]).value))
    else None
  }

  ghost function KanjiComponentsAt(items: seq<Item>, at: nat): Option<KanjiComponentsRecord> {
    if && at + 2 <= |items| && TextOf(items[at]).Some? && TextsOf(items[at + 1]).Some?
    then Some(KanjiComponentsRecord(
                TextOf(items[at]).value, TextsOf(items[at + 1]).value))
    else None
  }

  function FieldItems(data: RecordData): seq<Item> {
    match data
    case Jmdict(record) => JmdictItems(record)
    case Jmnedict(record) => JmnedictItems(record)
    case Kanjidic(record) => KanjidicItems(record)
    case YomitanTerm(record) => YomitanTermItems(record)
    case YomitanKanji(record) => YomitanKanjiItems(record)
    case PitchAccent(record) => PitchAccentItems(record)
    case CustomWord(record) => CustomWordItems(record)
    case CustomName(record) => CustomNameItems(record)
    case Frequency(record) => FrequencyItems(record)
    case KanjiExamples(record) => KanjiExamplesItems(record)
    case KanjiComponents(record) => KanjiComponentsItems(record)
  }

  /** The record of a kind whose fields start at a position. */
  ghost function DataAt(convert: int -> Double, kind: int, items: seq<Item>, at: nat): Option<RecordData> {
    match kind
    case 0 => (match JmdictAt(items, at) case Some(record) => Some(Jmdict(record)) case None => None)
    case 1 => (match JmnedictAt(items, at) case Some(record) => Some(Jmnedict(record)) case None => None)
    case 2 => (match KanjidicAt(items, at) case Some(record) => Some(Kanjidic(record)) case None => None)
    case 3 => (match YomitanTermAt(convert, items, at) case Some(record) => Some(YomitanTerm(record)) case None => None)
    case 4 => (match YomitanKanjiAt(items, at) case Some(record) => Some(YomitanKanji(record)) case None => None)
    case 5 => (match PitchAccentAt(items, at) case Some(record) => Some(PitchAccent(record)) case None => None)
    case 6 => (match CustomWordAt(items, at) case Some(record) => Some(CustomWord(record)) case None => None)
    case 7 => (match CustomNameAt(convert, items, at) case Some(record) => Some(CustomName(record)) case None => None)
    case 8 => (match FrequencyAt(items, at) case Some(record) => Some(Frequency(record)) case None => None)
    case 9 => (match KanjiExamplesAt(items, at) case Some(record) => Some(KanjiExamples(record)) case None => None)
    case 10 => (match KanjiComponentsAt(items, at) case Some(record) => Some(KanjiComponents(record)) case None => None)
    case _ => None
  }

  /** The item a payload is: an array that a break ends, of the codec version, the kind and the fields. */
  function PayloadItem(data: RecordData): Item {
    OpenGroup(4, [IntItem(CODEC_VERSION), IntItem(KindOf(data))] + FieldItems(data))
  }

  /** The version and kind a payload declares, when this build reads it. */
  function HeaderOf(document: Item): Option<int> {
    if IsArray(document) && |document.items| >= 2 && IntOf(document.items[0]).Some?
        && IntOf(document.items[1]).Some? then
      var version, kind := IntOf(document.items[0]).value, IntOf(document.items[1]).value;
      if 0 <= kind <= LAST_KIND && ToInt32(version) == CODEC_VERSION then Some(kind) else None
    else None
  }

  /** What a payload decodes to. */
  ghost function Decoded(convert: int -> Double, document: Item): Option<RecordData> {
    if HeaderOf(document).Some? then DataAt(convert, HeaderOf(document).value, document.items, 2) else None
  }

  // ---------------------------------------------------------------- round trips

  lemma IntRoundTrip(value: int)
    requires -0x8000_0000_0000_0000 <= value < 0x8000_0000_0000_0000
    ensures IntOf(IntItem(value)) == Some(value)
  {
  }

  lemma Int32RoundTrip(value: Int32)
    ensures Int32Of(IntItem(value)) == Some(value)
  {
    IntRoundTrip(value);
  }

  lemma ByteRoundTrip(value: Byte)
    ensures ByteOf(IntItem(value)) == Some(value)
  {
    IntRoundTrip(value);
  }

  /** A list comes back when each of its elements does. */
  lemma ListRoundTrip<T>(item: T -> Item, read: Item -> Option<T>, values: seq<T>)
    requires forall v :: v in values ==> read(item(v)) == Some(v)
    ensures ListOf(read, ArrayItem(Items(item, values))) == Some(values)
  {
    var items := Items(item, values);
    forall i | 0 <= i < |items|
      ensures read(items[i]) == Some(values[i])
    {
      assert values[i] in values;
    }
    assert Each(read, items).value == values;
  }

  lemma TextsRoundTrip(values: seq<Utf8>)
    ensures TextsOf(TextsItem(values)) == Some(values)
  {
    ListRoundTrip(TextItem, TextOf, values);
  }

  lemma BytesRoundTrip(values: seq<Byte>)
    ensures BytesOf(BytesItem(values)) == Some(values)
  {
    forall v | v in values
      ensures ByteOf(ByteItem(v)) == Some(v)
    {
      ByteRoundTrip(v);
    }
    ListRoundTrip(ByteItem, ByteOf, values);
  }

  lemma TextListsRoundTrip(values: seq<seq<Utf8>>)
    ensures TextListsOf(TextListsItem(values)) == Some(values)
  {
    forall v | v in values
      ensures TextsOf(TextsItem(v)) == Some(v)
    {
      TextsRoundTrip(v);
    }
    ListRoundTrip(TextsItem, TextsOf, values);
  }

  lemma TagsRoundTrip(tags: SenseTags)
    ensures TagsOf(TagsItem(tags)) == Some(tags)
  {
    TextsRoundTrip(tags.sharedByAllSenses);
    TextListsRoundTrip(tags.perSense);
  }

  lemma ImageRoundTrip(convert: int -> Double, image: ImageInfo)
    ensures ImageFrom(convert, ImageItem(image)) == Some(image)
    ensures ImageItem(image) != NULL_ITEM
  {
    Int32RoundTrip(image.pixelWidth);
    Int32RoundTrip(image.pixelHeight);
  }

  lemma ImagesRoundTrip(convert: int -> Double, images: seq<ImageInfo>)
    ensures ImagesOf(convert, ImagesItem(images)) == Some(images)
  {
    forall v | v in images
      ensures ImageOf(convert)(ImageItem(v)) == Some(v)
    {
      ImageRoundTrip(convert, v);
    }
    ListRoundTrip(ImageItem, ImageOf(convert), images);
  }

  lemma OptionalImageRoundTrip(convert: int -> Double, image: Option<ImageInfo>)
    ensures OptionalImageFrom(convert, OptionalImageItem(image)) == Some(image)
  {
    if image.Some? {
      ImageRoundTrip(convert, image.value);
    }
  }

  lemma LoanwordRoundTrip(source: LoanwordSource)
    ensures LoanwordOf(LoanwordItem(source)) == Some(source)
  {
  }

  lemma LoanwordsRoundTrip(sources: seq<LoanwordSource>)
    ensures LoanwordsOf(LoanwordsItem(sources)) == Some(sources)
  {
    forall v | v in sources
      ensures LoanwordOf(LoanwordItem(v)) == Some(v)
    {
      LoanwordRoundTrip(v);
    }
    ListRoundTrip(LoanwordItem, LoanwordOf, sources);
  }

  lemma ExamplesRoundTrip(examples: seq<KanjiExample>)
    ensures ExamplesOf(ExamplesItem(examples)) == Some(examples)
  {
    forall v | v in examples
      ensures ExampleOf(ExampleItem(v)) == Some(v)
    {
    }
    ListRoundTrip(ExampleItem, ExampleOf, examples);
  }

  lemma JmdictRoundTrip(record: JmdictRecord, items: seq<Item>, at: nat)
    requires var fields := JmdictItems(record); at + |fields| <= |items| && items[at..at + |fields|] == fields
    ensures JmdictAt(items, at) == Some(record)
  {
    hide TextsItem, TextListsItem, TagsItem, LoanwordsItem, IntItem, TextsOf, TextListsOf, TagsOf, LoanwordsOf, Int32Of;
    Int32RoundTrip(record.entryId);
    TextsRoundTrip(record.primarySpellingOrthographyInfo);
    TextsRoundTrip(record.alternativeSpellings);
    TextListsRoundTrip(record.alternativeSpellingsOrthographyInfo);
    TextsRoundTrip(record.readings);
    TextListsRoundTrip(record.readingsOrthographyInfo);
    TextListsRoundTrip(record.definitions);
    TagsRoundTrip(record.wordClasses);
    TagsRoundTrip(record.fields);
    TagsRoundTrip(record.misc);
    TagsRoundTrip(record.dialects);
    TextListsRoundTrip(record.spellingRestrictions);
    TextListsRoundTrip(record.readingRestrictions);
    TextsRoundTrip(record.definitionInfo);
    TextListsRoundTrip(record.crossReferences);
    LoanwordsRoundTrip(record.loanwordEtymology);
    TextsRoundTrip(record.info);
    Int32RoundTrip(record.priorityRank);
    var fields := items[at..at + 19];
    assert items[at + 0] == fields[0];
    assert items[at + 1] == fields[1];
    assert items[at + 2] == fields[2];
    assert items[at + 3] == fields[3];
    assert items[at + 4] == fields[4];
    assert items[at + 5] == fields[5];
    assert items[at + 6] == fields[6];
    assert items[at + 7] == fields[7];
    assert items[at + 8] == fields[8];
    assert items[at + 9] == fields[9];
    assert items[at + 10] == fields[10];
    assert items[at + 11] == fields[11];
    assert items[at + 12] == fields[12];
    assert items[at + 13] == fields[13];
    assert items[at + 14] == fields[14];
    assert items[at + 15] == fields[15];
    assert items[at + 16] == fields[16];
    assert items[at + 17] == fields[17];
    assert items[at + 18] == fields[18];
  }

  lemma JmnedictRoundTrip(record: JmnedictRecord, items: seq<Item>, at: nat)
    requires var fields := JmnedictItems(record); at + |fields| <= |items| && items[at..at + |fields|] == fields
    ensures JmnedictAt(items, at) == Some(record)
  {
    Int32RoundTrip(record.entryId);
    TextsRoundTrip(record.alternativeSpellings);
    TextsRoundTrip(record.readings);
    TextListsRoundTrip(record.definitions);
    TextListsRoundTrip(record.nameTypes);
    var fields := items[at..at + 6];
    assert forall i :: 0 <= i < 6 ==> items[at + i] == fields[i];
  }

  lemma KanjidicRoundTrip(record: KanjidicRecord, items: seq<Item>, at: nat)
    requires var fields := KanjidicItems(record); at + |fields| <= |items| && items[at..at + |fields|] == fields
    ensures KanjidicAt(items, at) == Some(record)
  {
    TextsRoundTrip(record.definitions);
    TextsRoundTrip(record.onReadings);
    TextsRoundTrip(record.kunReadings);
    TextsRoundTrip(record.nanoriReadings);
    TextsRoundTrip(record.radicalNames);
    ByteRoundTrip(record.strokeCount);
    ByteRoundTrip(record.grade);
    Int32RoundTrip(record.frequency);
    var fields := items[at..at + 8];
    assert forall i :: 0 <= i < 8 ==> items[at + i] == fields[i];
  }

  lemma YomitanTermRoundTrip(convert: int -> Double, record: YomitanTermRecord, items: seq<Item>, at: nat)
    requires var fields := YomitanTermItems(record); at + |fields| <= |items| && items[at..at + |fields|] == fields
    ensures YomitanTermAt(convert, items, at) == Some(record)
  {
    hide TextsItem, ImagesItem, IntItem, TextsOf, ImagesOf, Int32Of;
    TextsRoundTrip(record.definitions);
    TextsRoundTrip(record.definitionsPlain);
    TextsRoundTrip(record.wordClasses);
    TextsRoundTrip(record.definitionTags);
    TextsRoundTrip(record.termTags);
    ImagesRoundTrip(convert, record.images);
    Int32RoundTrip(record.sequence);
    var fields := items[at..at + 10];
    assert forall i :: 0 <= i < 10 ==> items[at + i] == fields[i];
  }

  lemma YomitanKanjiRoundTrip(record: YomitanKanjiRecord, items: seq<Item>, at: nat)
    requires var fields := YomitanKanjiItems(record); at + |fields| <= |items| && items[at..at + |fields|] == fields
    ensures YomitanKanjiAt(items, at) == Some(record)
  {
    TextsRoundTrip(record.onReadings);
    TextsRoundTrip(record.kunReadings);
    TextsRoundTrip(record.tags);
    TextsRoundTrip(record.definitions);
    TextsRoundTrip(record.stats);
    var fields := items[at..at + 5];
    assert forall i :: 0 <= i < 5 ==> items[at + i] == fields[i];
  }

  lemma PitchAccentRoundTrip(record: PitchAccentRecord, items: seq<Item>, at: nat)
    requires var fields := PitchAccentItems(record); at + |fields| <= |items| && items[at..at + |fields|] == fields
    ensures PitchAccentAt(items, at) == Some(record)
  {
    BytesRoundTrip(record.positions);
    var fields := items[at..at + 3];
    assert forall i :: 0 <= i < 3 ==> items[at + i] == fields[i];
  }

  lemma CustomWordRoundTrip(record: CustomWordRecord, items: seq<Item>, at: nat)
    requires var fields := CustomWordItems(record); at + |fields| <= |items| && items[at..at + |fields|] == fields
    ensures CustomWordAt(items, at) == Some(record)
  {
    TextsRoundTrip(record.alternativeSpellings);
    TextsRoundTrip(record.readings);
    TextsRoundTrip(record.definitions);
    TextsRoundTrip(record.wordClasses);
    var fields := items[at..at + 6];
    assert forall i :: 0 <= i < 6 ==> items[at + i] == fields[i];
  }

  lemma CustomNameRoundTrip(convert: int -> Double, record: CustomNameRecord, items: seq<Item>, at: nat)
    requires var fields := CustomNameItems(record); at + |fields| <= |items| && items[at..at + |fields|] == fields
    ensures CustomNameAt(convert, items, at) == Some(record)
  {
    OptionalImageRoundTrip(convert, record.image);
    var fields := items[at..at + 5];
    assert forall i :: 0 <= i < 5 ==> items[at + i] == fields[i];
  }

  lemma FrequencyRoundTrip(record: FrequencyRecord, items: seq<Item>, at: nat)
    requires var fields := FrequencyItems(record); at + |fields| <= |items| && items[at..at + |fields|] == fields
    ensures FrequencyAt(items, at) == Some(record)
  {
    Int32RoundTrip(record.frequency);
    var fields := items[at..at + 2];
    assert forall i :: 0 <= i < 2 ==> items[at + i] == fields[i];
  }

  lemma KanjiExamplesRoundTrip(record: KanjiExamplesRecord, items: seq<Item>, at: nat)
    requires var fields := KanjiExamplesItems(record); at + |fields| <= |items| && items[at..at + |fields|] == fields
    ensures KanjiExamplesAt(items, at) == Some(record)
  {
    ExamplesRoundTrip(record.examples);
    var fields := items[at..at + 2];
    assert forall i :: 0 <= i < 2 ==> items[at + i] == fields[i];
  }

  lemma KanjiComponentsRoundTrip(record: KanjiComponentsRecord, items: seq<Item>, at: nat)
    requires var fields := KanjiComponentsItems(record); at + |fields| <= |items| && items[at..at + |fields|] == fields
    ensures KanjiComponentsAt(items, at) == Some(record)
  {
    TextsRoundTrip(record.components);
    var fields := items[at..at + 2];
    assert forall i :: 0 <= i < 2 ==> items[at + i] == fields[i];
  }

  /** Every record is what its payload decodes to, whatever items follow its fields. */
  lemma PayloadRoundTrip(convert: int -> Double, data: RecordData, extra: seq<Item>)
    ensures var items := PayloadItem(data).items + extra;
      Decoded(convert, OpenGroup(4, items)) == Some(data)
  {
    hide JmdictAt, JmnedictAt, KanjidicAt, YomitanTermAt, YomitanKanjiAt, PitchAccentAt, CustomWordAt, CustomNameAt,
         FrequencyAt, KanjiExamplesAt, KanjiComponentsAt;
    hide JmdictItems, JmnedictItems, KanjidicItems, YomitanTermItems, YomitanKanjiItems, PitchAccentItems,
         CustomWordItems, CustomNameItems, FrequencyItems, KanjiExamplesItems, KanjiComponentsItems;
    var items, fields := PayloadItem(data).items + extra, FieldItems(data);
    IntRoundTrip(CODEC_VERSION);
    IntRoundTrip(KindOf(data));
    assert items[0] == IntItem(CODEC_VERSION) && items[1] == IntItem(KindOf(data));
    assert items[2..2 + |fields|] == fields;
    match data
    case Jmdict(record) => JmdictRoundTrip(record, items, 2);
    case Jmnedict(record) => JmnedictRoundTrip(record, items, 2);
    case Kanjidic(record) => KanjidicRoundTrip(record, items, 2);
    case YomitanTerm(record) => YomitanTermRoundTrip(convert, record, items, 2);
    case YomitanKanji(record) => YomitanKanjiRoundTrip(record, items, 2);
    case PitchAccent(record) => PitchAccentRoundTrip(record, items, 2);
    case CustomWord(record) => CustomWordRoundTrip(record, items, 2);
    case CustomName(record) => CustomNameRoundTrip(convert, record, items, 2);
    case Frequency(record) => FrequencyRoundTrip(record, items, 2);
    case KanjiExamples(record) => KanjiExamplesRoundTrip(record, items, 2);
    case KanjiComponents(record) => KanjiComponentsRoundTrip(record, items, 2);
  }

  /** Items behind the ones a fixed-shape array needs do not change what is read. */
  lemma ExtraItemsIgnored(convert: int -> Double, width: Width, fields: seq<Item>, extra: seq<Item>)
    ensures TagsOf(ArrayItem(fields)).Some? ==> TagsOf(Group(4, width, fields + extra)) == TagsOf(ArrayItem(fields))
    ensures ImageFrom(convert, ArrayItem(fields)).Some? ==>
      ImageFrom(convert, Group(4, width, fields + extra)) == ImageFrom(convert, ArrayItem(fields))
    ensures LoanwordOf(ArrayItem(fields)).Some? ==>
      LoanwordOf(Group(4, width, fields + extra)) == LoanwordOf(ArrayItem(fields))
    ensures ExampleOf(ArrayItem(fields)).Some? ==>
      ExampleOf(Group(4, width, fields + extra)) == ExampleOf(ArrayItem(fields))
  {
    assert forall i :: 0 <= i < |fields| ==> (fields + extra)[i] == fields[i];
  }
}
