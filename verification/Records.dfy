/** The record shapes of a store, the CBOR items that carry them, and what each shape reads back from an
    item (src/dict/records.h, src/dict/codec.cpp). Strings are held in their UTF-8 form and doubles as
    their 64 bits. */
module Records {
  import opened Basics
  import opened Cbor
  import opened CborReader

  type Utf8 = Bytes
  type Double = bits: nat | bits < 0x1_0000_0000_0000_0000
  type Int32 = x: int | -0x8000_0000 <= x < 0x8000_0000

  datatype ImageInfo = ImageInfo(path: Utf8, pixelWidth: Int32, pixelHeight: Int32, width: Double, height: Double)
  datatype SenseTags = SenseTags(sharedByAllSenses: seq<Utf8>, perSense: seq<seq<Utf8>>)
  datatype LoanwordSource = LoanwordSource(language: Utf8, originalWord: Utf8, isPart: bool, isWasei: bool)
  datatype KanjiExample = KanjiExample(spelling: Utf8, reading: Utf8, gloss: Utf8)

  datatype JmdictRecord = JmdictRecord(
    entryId: Int32,
    primarySpelling: Utf8,
    primarySpellingOrthographyInfo: seq<Utf8>,
    alternativeSpellings: seq<Utf8>,
    alternativeSpellingsOrthographyInfo: seq<seq<Utf8>>,
    readings: seq<Utf8>,
    readingsOrthographyInfo: seq<seq<Utf8>>,
    definitions: seq<seq<Utf8>>,
    wordClasses: SenseTags,
    fields: SenseTags,
    misc: SenseTags,
    dialects: SenseTags,
    spellingRestrictions: seq<seq<Utf8>>,
    readingRestrictions: seq<seq<Utf8>>,
    definitionInfo: seq<Utf8>,
    crossReferences: seq<seq<Utf8>>,
    loanwordEtymology: seq<LoanwordSource>,
    info: seq<Utf8>,
    priorityRank: Int32)

  datatype JmnedictRecord = JmnedictRecord(
    entryId: Int32,
    primarySpelling: Utf8,
    alternativeSpellings: seq<Utf8>,
    readings: seq<Utf8>,
    definitions: seq<seq<Utf8>>,
    nameTypes: seq<seq<Utf8>>)

  datatype KanjidicRecord = KanjidicRecord(
    definitions: seq<Utf8>,
    onReadings: seq<Utf8>,
    kunReadings: seq<Utf8>,
    nanoriReadings: seq<Utf8>,
    radicalNames: seq<Utf8>,
    strokeCount: Byte,
    grade: Byte,
    frequency: Int32)

  datatype YomitanTermRecord = YomitanTermRecord(
    primarySpelling: Utf8,
    reading: Utf8,
    popularityScore: Double,
    definitions: seq<Utf8>,
    definitionsPlain: seq<Utf8>,
    wordClasses: seq<Utf8>,
    definitionTags: seq<Utf8>,
    termTags: seq<Utf8>,
    images: seq<ImageInfo>,
    sequence: Int32)

  datatype YomitanKanjiRecord = YomitanKanjiRecord(
    onReadings: seq<Utf8>,
    kunReadings: seq<Utf8>,
    tags: seq<Utf8>,
    definitions: seq<Utf8>,
    stats: seq<Utf8>)

  datatype PitchAccentRecord = PitchAccentRecord(spelling: Utf8, reading: Utf8, positions: seq<Byte>)

  datatype CustomWordRecord = CustomWordRecord(
    primarySpelling: Utf8,
    alternativeSpellings: seq<Utf8>,
    readings: seq<Utf8>,
    definitions: seq<Utf8>,
    wordClasses: seq<Utf8>,
    hasUserDefinedWordClass: bool)

  datatype CustomNameRecord = CustomNameRecord(
    primarySpelling: Utf8,
    reading: Utf8,
    nameType: Utf8,
    extraInfo: Utf8,
    image: Option<ImageInfo>)

  datatype FrequencyRecord = FrequencyRecord(spelling: Utf8, frequency: Int32)
  datatype KanjiExamplesRecord = KanjiExamplesRecord(kanji: Utf8, examples: seq<KanjiExample>)
  datatype KanjiComponentsRecord = KanjiComponentsRecord(kanji: Utf8, components: seq<Utf8>)

  datatype RecordData =
    | Jmdict(jmdict: JmdictRecord)
    | Jmnedict(jmnedict: JmnedictRecord)
    | Kanjidic(kanjidic: KanjidicRecord)
    | YomitanTerm(yomitanTerm: YomitanTermRecord)
    | YomitanKanji(yomitanKanji: YomitanKanjiRecord)
    | PitchAccent(pitchAccent: PitchAccentRecord)
    | CustomWord(customWord: CustomWordRecord)
    | CustomName(customName: CustomNameRecord)
    | Frequency(frequency: FrequencyRecord)
    | KanjiExamples(kanjiExamples: KanjiExamplesRecord)
    | KanjiComponents(kanjiComponents: KanjiComponentsRecord)

  /** The dictionary type of the store selects a rendering and passes through the codec untouched. */
  datatype Record<D> = Record(id: int, dictType: D, data: RecordData)

  const CODEC_VERSION := 1
  const LAST_KIND := 10

  /** The index of the variant alternative, which is part of the payload. */
  function KindOf(data: RecordData): (kind: nat)
    ensures kind <= LAST_KIND
  {
    match data
    case Jmdict(_) => 0
    case Jmnedict(_) => 1
    case Kanjidic(_) => 2
    case YomitanTerm(_) => 3
    case YomitanKanji(_) => 4
    case PitchAccent(_) => 5
    case CustomWord(_) => 6
    case CustomName(_) => 7
    case Frequency(_) => 8
    case KanjiExamples(_) => 9
    case KanjiComponents(_) => 10
  }

  // ---------------------------------------------------------------- values as items

  function IntItem(value: int): Item {
    if value >= 0 then Scalar(0, Shortest(value), value) else Scalar(1, Shortest(-1 - value), -1 - value)
  }

  function RealItem(value: Double): Item {
    Scalar(7, Eight, value)
  }

  function BoolItem(value: bool): Item {
    Scalar(7, InHead, if value then 21 else 20)
  }

  const NULL_ITEM := Scalar(7, InHead, 22)

  function TextItem(value: Utf8): Item {
    Chars(3, Shortest(|value|), value)
  }

  function ArrayItem(items: seq<Item>): Item {
    Group(4, Shortest(|items|), items)
  }

  function Items<T>(item: T -> Item, values: seq<T>): (items: seq<Item>)
    ensures |items| == |values|
    ensures forall i :: 0 <= i < |values| ==> items[i] == item(values[i])
  {
    seq(|values|, i requires 0 <= i < |values| => item(values[i]))
  }

  function TextsItem(values: seq<Utf8>): Item {
    ArrayItem(Items(TextItem, values))
  }

  function ByteItem(value: Byte): Item {
    IntItem(value)
  }

  function BytesItem(values: seq<Byte>): Item {
    ArrayItem(Items(ByteItem, values))
  }

  function TextListsItem(values: seq<seq<Utf8>>): Item {
    ArrayItem(Items(TextsItem, values))
  }

  function TagsItem(tags: SenseTags): Item {
    ArrayItem([TextsItem(tags.sharedByAllSenses), TextListsItem(tags.perSense)])
  }

  function ImageItem(image: ImageInfo): Item {
    ArrayItem([TextItem(image.path), IntItem(image.pixelWidth), IntItem(image.pixelHeight), RealItem(image.width),
               RealItem(image.height)])
  }

  function OptionalImageItem(image: Option<ImageInfo>): Item {
    if image.Some? then ImageItem(image.value) else NULL_ITEM
  }

  function ImagesItem(images: seq<ImageInfo>): Item {
    ArrayItem(Items(ImageItem, images))
  }

  function LoanwordItem(source: LoanwordSource): Item {
    ArrayItem([TextItem(source.language), TextItem(source.originalWord), BoolItem(source.isPart),
               BoolItem(source.isWasei)])
  }

  function LoanwordsItem(sources: seq<LoanwordSource>): Item {
    ArrayItem(Items(LoanwordItem, sources))
  }

  function ExampleItem(example: KanjiExample): Item {
    ArrayItem([TextItem(example.spelling), TextItem(example.reading), TextItem(example.gloss)])
  }

  function ExamplesItem(examples: seq<KanjiExample>): Item {
    ArrayItem(Items(ExampleItem, examples))
  }

  // ---------------------------------------------------------------- items as values

  /** The casts of the source wrap. */
  function ToInt64(value: int): int {
    var low := value % 0x1_0000_0000_0000_0000;
    if low < 0x8000_0000_0000_0000 then low else low - 0x1_0000_0000_0000_0000
  }

  function ToInt32(value: int): Int32 {
    var low := value % 0x1_0000_0000;
    if low < 0x8000_0000 then low else low - 0x1_0000_0000
  }

  function ToByte(value: int): Byte {
    value % 0x100
  }

  function IntOf(item: Item): Option<int> {
    if item.Scalar? && item.major == 0 then Some(ToInt64(item.value))
    else if item.Scalar? && item.major == 1 then Some(ToInt64(-1 - item.value))
    else None
  }

  function Int32Of(item: Item): Option<Int32> {
    if IntOf(item).Some? then Some(ToInt32(IntOf(item).value)) else None
  }

  function ByteOf(item: Item): Option<Byte> {
    if IntOf(item).Some? then Some(ToByte(IntOf(item).value)) else None
  }

  /** A double is read from a 64-bit float, or converted from an integer. */
  function RealFrom(convert: int -> Double, item: Item): Option<Double> {
    if item.Scalar? && item.major == 7 && item.width == Eight && item.value < 0x1_0000_0000_0000_0000 then
      Some(item.value)
    else if IntOf(item).Some? then Some(convert(IntOf(item).value))
    else None
  }

  function RealOf(convert: int -> Double): Item -> Option<Double> {
    (item: Item) => RealFrom(convert, item)
  }

  function BoolOf(item: Item): Option<bool> {
    if item == BoolItem(true) then Some(true) else if item == BoolItem(false) then Some(false) else None
  }

  function TextOf(item: Item): Option<Utf8> {
    if (item.Chars? || item.OpenChars?) && item.major == 3 then StringContent(item) else None
  }

  predicate IsArray(item: Item) {
    (item.Group? || item.OpenGroup?) && item.major == 4
  }

  /** Every item read, when every item can be. */
  ghost function Each<T>(read: Item -> Option<T>, items: seq<Item>): (values: Option<seq<T>>)
    ensures values.Some? <==> forall i :: 0 <= i < |items| ==> read(items[i]).Some?
    ensures values.Some? ==>
      |values.value| == |items| && forall i :: 0 <= i < |items| ==> read(items[i]) == Some(values.value[i])
  {
    if forall i :: 0 <= i < |items| ==> read(items[i]).Some? then
      Some(seq(|items|, i requires 0 <= i < |items| && read(items[i]).Some? => read(items[i]).value))
    else None
  }

  ghost function ListOf<T>(read: Item -> Option<T>, item: Item): Option<seq<T>> {
    if IsArray(item) then Each(read, item.items) else None
  }

  ghost function TextsOf(item: Item): Option<seq<Utf8>> {
    ListOf(TextOf, item)
  }

  ghost function BytesOf(item: Item): Option<seq<Byte>> {
    ListOf(ByteOf, item)
  }

  ghost function TextListsOf(item: Item): Option<seq<seq<Utf8>>> {
    ListOf(TextsOf, item)
  }

  /** An array of at least two items; the ones behind the two it needs are skipped. */
  ghost function TagsOf(item: Item): Option<SenseTags> {
    if IsArray(item) then TagsAt(item.items, 0) else None
  }

  ghost function TagsAt(items: seq<Item>, at: nat): Option<SenseTags> {
    if at + 2 <= |items| && TextsOf(items[at]).Some? && TextListsOf(items[at + 1]).Some?
    then Some(SenseTags(TextsOf(items[at]).value, TextListsOf(items[at + 1]).value))
    else None
  }

  function ImageFrom(convert: int -> Double, item: Item): Option<ImageInfo> {
    if IsArray(item) then ImageAt(convert, item.items, 0) else None
  }

  function ImageOf(convert: int -> Double): Item -> Option<ImageInfo> {
    (item: Item) => ImageFrom(convert, item)
  }

  function ImageAt(convert: int -> Double, items: seq<Item>, at: nat): Option<ImageInfo> {
    if && at + 5 <= |items| && TextOf(items[at]).Some? && Int32Of(items[at + 1]).Some? && Int32Of(items[at + 2]).Some?
       && RealFrom(convert, items[at + 3]).Some? && RealFrom(convert, items[at + 4]).Some?
    then Some(ImageInfo(TextOf(items[at]).value, Int32Of(items[at + 1]).value, Int32Of(items[at + 2]).value,
                        RealFrom(convert, items[at + 3]).value, RealFrom(convert, items[at + 4]).value))
    else None
  }

  function OptionalImageFrom(convert: int -> Double, item: Item): Option<Option<ImageInfo>> {
    if item == NULL_ITEM then Some(None)
    else if ImageFrom(convert, item).Some? then Some(ImageFrom(convert, item)) else None
  }

  ghost function ImagesOf(convert: int -> Double, item: Item): Option<seq<ImageInfo>> {
    ListOf(ImageOf(convert), item)
  }

  function LoanwordOf(item: Item): Option<LoanwordSource> {
    if IsArray(item) then LoanwordAt(item.items, 0) else None
  }

  function LoanwordAt(items: seq<Item>, at: nat): Option<LoanwordSource> {
    if && at + 4 <= |items| && TextOf(items[at]).Some? && TextOf(items[at + 1]).Some?
       && BoolOf(items[at + 2]).Some? && BoolOf(items[at + 3]).Some?
    then Some(LoanwordSource(TextOf(items[at]).value, TextOf(items[at + 1]).value, BoolOf(items[at + 2]).value,
                             BoolOf(items[at + 3]).value))
    else None
  }

  ghost function LoanwordsOf(item: Item): Option<seq<LoanwordSource>> {
    ListOf(LoanwordOf, item)
  }

  function ExampleOf(item: Item): Option<KanjiExample> {
    if IsArray(item) then ExampleAt(item.items, 0) else None
  }

  function ExampleAt(items: seq<Item>, at: nat): Option<KanjiExample> {
    if at + 3 <= |items| && TextOf(items[at]).Some? && TextOf(items[at + 1]).Some? && TextOf(items[at + 2]).Some?
    then Some(KanjiExample(TextOf(items[at]).value, TextOf(items[at + 1]).value, TextOf(items[at + 2]).value))
    else None
  }

  ghost function ExamplesOf(item: Item): Option<seq<KanjiExample>> {
    ListOf(ExampleOf, item)
  }
}
