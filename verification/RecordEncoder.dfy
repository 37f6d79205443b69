/** Writing records: the encoder and the per-kind encoders (src/dict/codec.cpp). */
module RecordEncoder {
  import opened Basics
  import opened Cbor
  import opened CborReader
  import opened Records
  import opened RecordFields

  /** Where the array being written began: what was in front of it. */
  datatype Mark = Mark(start: Bytes, items: seq<Item>)

  class Encoder {
    var buffer: Bytes
    // The items written to the open array, whose first byte behind its head is at |start|.
    ghost var start: Bytes
    ghost var items: seq<Item>

    ghost predicate Valid()
      reads this
    {
      buffer == start + BytesAll(items)
    }

    /** The method wrote one item. */
    twostate predicate Wrote(item: Item)
      reads this
    {
      Valid() && start == old(start) && items == old(items) + [item]
    }

    constructor ()
      ensures Valid() && buffer == [] && items == []
    {
      buffer, start, items := [], [], [];
    }

    method StartRecord(kind: nat)
      requires Valid() && buffer == []
      modifies this
      ensures Valid() && start == [OpenByte(4)] && items == [IntItem(CODEC_VERSION), IntItem(kind)]
    {
      buffer := buffer + [OpenByte(4)];
      start, items := buffer, [];
      Number(CODEC_VERSION);
      Number(kind);
    }

    method EndRecord()
      requires Valid() && start == [OpenByte(4)]
      modifies this
      ensures buffer == ItemBytes(OpenGroup(4, old(items))) && buffer != []
    {
      buffer := buffer + [BREAK];
    }

    /** Appends the bytes of an item. */
    method Append(bytes: Bytes, ghost item: Item)
      requires Valid() && bytes == ItemBytes(item)
      modifies this
      ensures Wrote(item)
    {
      hide ItemBytes;
      BytesOfPush(items, item);
      assert start + BytesAll(items) + bytes == start + (BytesAll(items) + bytes);
      buffer := buffer + bytes;
      items := items + [item];
    }

    method Number(value: int)
      requires Valid()
      modifies this
      ensures Wrote(IntItem(value))
    {
      if value >= 0 {
        Append(HeadBytes(0, Shortest(value), value), IntItem(value));
      } else {
        Append(HeadBytes(1, Shortest(-1 - value), -1 - value), IntItem(value));
      }
    }

    method Real(value: Double)
      requires Valid()
      modifies this
      ensures Wrote(RealItem(value))
    {
      Append(HeadBytes(7, Eight, value), RealItem(value));
    }

    method Boolean(value: bool)
      requires Valid()
      modifies this
      ensures Wrote(BoolItem(value))
    {
      Append(if value then [0xf5] else [0xf4], BoolItem(value));
    }

    method Null()
      requires Valid()
      modifies this
      ensures Wrote(NULL_ITEM)
    {
      Append([0xf6], NULL_ITEM);
    }

    method String(value: Utf8)
      requires Valid()
      modifies this
      ensures Wrote(TextItem(value))
    {
      Append(HeadBytes(3, Shortest(|value|), |value|) + value, TextItem(value));
    }

    /** The head of an array of known length; the items written next are the array's. */
    method StartArray(count: nat) returns (ghost mark: Mark)
      requires Valid()
      modifies this
      ensures Valid() && items == [] && start == old(buffer) + HeadBytes(4, Shortest(count), count)
      ensures mark == Mark(old(start), old(items))
    {
      mark := Mark(start, items);
      buffer := buffer + HeadBytes(4, Shortest(count), count);
      start, items := buffer, [];
    }

    /** An array of known length has no closing byte: its items become one item of the array around. */
    ghost method EndArray(mark: Mark)
      requires Valid()
      requires start == mark.start + BytesAll(mark.items) + HeadBytes(4, Shortest(|items|), |items|)
      modifies this`start, this`items
      ensures Valid() && start == mark.start && items == mark.items + [ArrayItem(old(items))]
    {
      hide HeadBytes;
      var item := ArrayItem(items);
      BytesOfPush(mark.items, item);
      assert ItemBytes(item) == HeadBytes(4, Shortest(|items|), |items|) + BytesAll(items);
      start, items := mark.start, mark.items + [item];
    }

    method StringList(values: seq<Utf8>)
      requires Valid()
      modifies this
      ensures Wrote(TextsItem(values))
    {
      hide BytesAll, ItemBytes, HeadBytes;
      ghost var mark := StartArray(|values|);
      ghost var inside := start;
      for n := 0 to |values|
        invariant Valid() && start == inside && items == Items(TextItem, values[..n])
      {
        String(values[n]);
        assert items == Items(TextItem, values[..n + 1]);
      }
      assert values[..|values|] == values;
      EndArray(mark);
    }

    method ByteList(values: seq<Byte>)
      requires Valid()
      modifies this
      ensures Wrote(BytesItem(values))
    {
      hide BytesAll, ItemBytes, HeadBytes;
      ghost var mark := StartArray(|values|);
      ghost var inside := start;
      for n := 0 to |values|
        invariant Valid() && start == inside && items == Items(ByteItem, values[..n])
      {
        Number(values[n]);
        assert items == Items(ByteItem, values[..n + 1]);
      }
      assert values[..|values|] == values;
      EndArray(mark);
    }

    method StringListList(values: seq<seq<Utf8>>)
      requires Valid()
      modifies this
      ensures Wrote(TextListsItem(values))
    {
      hide BytesAll, ItemBytes, HeadBytes;
      ghost var mark := StartArray(|values|);
      ghost var inside := start;
      for n := 0 to |values|
        invariant Valid() && start == inside && items == Items(TextsItem, values[..n])
      {
        StringList(values[n]);
        assert items == Items(TextsItem, values[..n + 1]);
      }
      assert values[..|values|] == values;
      EndArray(mark);
    }

    method WriteSenseTags(tags: SenseTags)
      requires Valid()
      modifies this
      ensures Wrote(TagsItem(tags))
    {
      hide BytesAll, ItemBytes, HeadBytes, TextsItem, TextListsItem;
      ghost var mark := StartArray(2);
      StringList(tags.sharedByAllSenses);
      StringListList(tags.perSense);
      assert items == [TextsItem(tags.sharedByAllSenses), TextListsItem(tags.perSense)];
      EndArray(mark);
    }

    method Image(info: ImageInfo)
      requires Valid()
      modifies this
      ensures Wrote(ImageItem(info))
    {
      hide BytesAll, ItemBytes, HeadBytes, TextItem, IntItem, RealItem;
      ghost var mark := StartArray(5);
      String(info.path);
      Number(info.pixelWidth);
      Number(info.pixelHeight);
      Real(info.width);
      Real(info.height);
      assert items == ImageItem(info).items;
      EndArray(mark);
    }

    method OptionalImage(info: Option<ImageInfo>)
      requires Valid()
      modifies this
      ensures Wrote(OptionalImageItem(info))
    {
      if info.Some? {
        Image(info.value);
      } else {
        Null();
      }
    }

    method ImageList(infos: seq<ImageInfo>)
      requires Valid()
      modifies this
      ensures Wrote(ImagesItem(infos))
    {
      hide BytesAll, ItemBytes, HeadBytes, ImageItem;
      ghost var mark := StartArray(|infos|);
      ghost var inside := start;
      for n := 0 to |infos|
        invariant Valid() && start == inside && items == Items(ImageItem, infos[..n])
      {
        Image(infos[n]);
        assert items == Items(ImageItem, infos[..n + 1]);
      }
      assert infos[..|infos|] == infos;
      EndArray(mark);
    }

    method Loanword(source: LoanwordSource)
      requires Valid()
      modifies this
      ensures Wrote(LoanwordItem(source))
    {
      hide BytesAll, ItemBytes, HeadBytes, TextItem, BoolItem;
      ghost var mark := StartArray(4);
      String(source.language);
      String(source.originalWord);
      Boolean(source.isPart);
      Boolean(source.isWasei);
      assert items == LoanwordItem(source).items;
      EndArray(mark);
    }

    method LoanwordSources(sources: seq<LoanwordSource>)
      requires Valid()
      modifies this
      ensures Wrote(LoanwordsItem(sources))
    {
      hide BytesAll, ItemBytes, HeadBytes, LoanwordItem;
      ghost var mark := StartArray(|sources|);
      ghost var inside := start;
      for n := 0 to |sources|
        invariant Valid() && start == inside && items == Items(LoanwordItem, sources[..n])
      {
        Loanword(sources[n]);
        assert items == Items(LoanwordItem, sources[..n + 1]);
      }
      assert sources[..|sources|] == sources;
      EndArray(mark);
    }

    method Example(example: KanjiExample)
      requires Valid()
      modifies this
      ensures Wrote(ExampleItem(example))
    {
      hide BytesAll, ItemBytes, HeadBytes, TextItem;
      ghost var mark := StartArray(3);
      String(example.spelling);
      String(example.reading);
      String(example.gloss);
      assert items == ExampleItem(example).items;
      EndArray(mark);
    }

    method Examples(examples: seq<KanjiExample>)
      requires Valid()
      modifies this
      ensures Wrote(ExamplesItem(examples))
    {
      hide BytesAll, ItemBytes, HeadBytes, ExampleItem;
      ghost var mark := StartArray(|examples|);
      ghost var inside := start;
      for n := 0 to |examples|
        invariant Valid() && start == inside && items == Items(ExampleItem, examples[..n])
      {
        Example(examples[n]);
        assert items == Items(ExampleItem, examples[..n + 1]);
      }
      assert examples[..|examples|] == examples;
      EndArray(mark);
    }
  }

  // ---------------------------------------------------------------- records

  /** The fields of a JMdict record up to its definitions. */
  method EncodeJmdictFront(encoder: Encoder, record: JmdictRecord)
    requires encoder.Valid()
    modifies encoder
    ensures encoder.Valid() && encoder.start == old(encoder.start)
    ensures encoder.items == old(encoder.items) + JmdictItems(record)[..8]
  {
    hide BytesAll, IntItem, TextItem, TextsItem, TextListsItem;
    encoder.Number(record.entryId);
    encoder.String(record.primarySpelling);
    encoder.StringList(record.primarySpellingOrthographyInfo);
    encoder.StringList(record.alternativeSpellings);
    encoder.StringListList(record.alternativeSpellingsOrthographyInfo);
    encoder.StringList(record.readings);
    encoder.StringListList(record.readingsOrthographyInfo);
    encoder.StringListList(record.definitions);
    assert encoder.items == old(encoder.items) + JmdictItems(record)[..8];
  }

  /** The fields of a JMdict record behind its definitions. */
  method EncodeJmdictBack(encoder: Encoder, record: JmdictRecord)
    requires encoder.Valid()
    modifies encoder
    ensures encoder.Valid() && encoder.start == old(encoder.start)
    ensures encoder.items == old(encoder.items) + JmdictItems(record)[8..]
  {
    hide BytesAll, IntItem, TextsItem, TextListsItem, TagsItem, LoanwordsItem;
    encoder.WriteSenseTags(record.wordClasses);
    encoder.WriteSenseTags(record.fields);
    encoder.WriteSenseTags(record.misc);
    encoder.WriteSenseTags(record.dialects);
    encoder.StringListList(record.spellingRestrictions);
    encoder.StringListList(record.readingRestrictions);
    encoder.StringList(record.definitionInfo);
    encoder.StringListList(record.crossReferences);
    encoder.LoanwordSources(record.loanwordEtymology);
    encoder.StringList(record.info);
    encoder.Number(record.priorityRank);
    assert encoder.items == old(encoder.items) + JmdictItems(record)[8..];
  }

  method EncodeJmdict(encoder: Encoder, record: JmdictRecord)
    requires encoder.Valid()
    modifies encoder
    ensures encoder.Valid() && encoder.start == old(encoder.start)
    ensures encoder.items == old(encoder.items) + JmdictItems(record)
  {
    hide BytesAll, IntItem, TextItem, TextsItem, TextListsItem, TagsItem, LoanwordsItem;
    EncodeJmdictFront(encoder, record);
    EncodeJmdictBack(encoder, record);
    assert JmdictItems(record)[..8] + JmdictItems(record)[8..] == JmdictItems(record);
  }

  method EncodeJmnedict(encoder: Encoder, record: JmnedictRecord)
    requires encoder.Valid()
    modifies encoder
    ensures encoder.Valid() && encoder.start == old(encoder.start)
    ensures encoder.items == old(encoder.items) + JmnedictItems(record)
  {
    hide BytesAll, IntItem, TextItem, TextsItem, TextListsItem;
    encoder.Number(record.entryId);
    encoder.String(record.primarySpelling);
    encoder.StringList(record.alternativeSpellings);
    encoder.StringList(record.readings);
    encoder.StringListList(record.definitions);
    encoder.StringListList(record.nameTypes);
    assert encoder.items == old(encoder.items) + JmnedictItems(record);
  }

  method EncodeKanjidic(encoder: Encoder, record: KanjidicRecord)
    requires encoder.Valid()
    modifies encoder
    ensures encoder.Valid() && encoder.start == old(encoder.start)
    ensures encoder.items == old(encoder.items) + KanjidicItems(record)
  {
    hide BytesAll, TextsItem, IntItem;
    encoder.StringList(record.definitions);
    encoder.StringList(record.onReadings);
    encoder.StringList(record.kunReadings);
    encoder.StringList(record.nanoriReadings);
    encoder.StringList(record.radicalNames);
    encoder.Number(record.strokeCount);
    encoder.Number(record.grade);
    encoder.Number(record.frequency);
    assert encoder.items == old(encoder.items) + KanjidicItems(record);
  }

  method EncodeYomitanTerm(encoder: Encoder, record: YomitanTermRecord)
    requires encoder.Valid()
    modifies encoder
    ensures encoder.Valid() && encoder.start == old(encoder.start)
    ensures encoder.items == old(encoder.items) + YomitanTermItems(record)
  {
    hide BytesAll, TextItem, RealItem, TextsItem, ImagesItem, IntItem;
    encoder.String(record.primarySpelling);
    encoder.String(record.reading);
    encoder.Real(record.popularityScore);
    encoder.StringList(record.definitions);
    encoder.StringList(record.definitionsPlain);
    encoder.StringList(record.wordClasses);
    encoder.StringList(record.definitionTags);
    encoder.StringList(record.termTags);
    encoder.ImageList(record.images);
    encoder.Number(record.sequence);
    assert encoder.items == old(encoder.items) + YomitanTermItems(record);
  }

  method EncodeYomitanKanji(encoder: Encoder, record: YomitanKanjiRecord)
    requires encoder.Valid()
    modifies encoder
    ensures encoder.Valid() && encoder.start == old(encoder.start)
    ensures encoder.items == old(encoder.items) + YomitanKanjiItems(record)
  {
    hide BytesAll, TextsItem;
    encoder.StringList(record.onReadings);
    encoder.StringList(record.kunReadings);
    encoder.StringList(record.tags);
    encoder.StringList(record.definitions);
    encoder.StringList(record.stats);
    assert encoder.items == old(encoder.items) + YomitanKanjiItems(record);
  }

  method EncodePitchAccent(encoder: Encoder, record: PitchAccentRecord)
    requires encoder.Valid()
    modifies encoder
    ensures encoder.Valid() && encoder.start == old(encoder.start)
    ensures encoder.items == old(encoder.items) + PitchAccentItems(record)
  {
    hide BytesAll, TextItem, BytesItem;
    encoder.String(record.spelling);
    encoder.String(record.reading);
    encoder.ByteList(record.positions);
    assert encoder.items == old(encoder.items) + PitchAccentItems(record);
  }

  method EncodeCustomWord(encoder: Encoder, record: CustomWordRecord)
    requires encoder.Valid()
    modifies encoder
    ensures encoder.Valid() && encoder.start == old(encoder.start)
    ensures encoder.items == old(encoder.items) + CustomWordItems(record)
  {
    hide BytesAll, TextItem, TextsItem, BoolItem;
    encoder.String(record.primarySpelling);
    encoder.StringList(record.alternativeSpellings);
    encoder.StringList(record.readings);
    encoder.StringList(record.definitions);
    encoder.StringList(record.wordClasses);
    encoder.Boolean(record.hasUserDefinedWordClass);
    assert encoder.items == old(encoder.items) + CustomWordItems(record);
  }

  method EncodeCustomName(encoder: Encoder, record: CustomNameRecord)
    requires encoder.Valid()
    modifies encoder
    ensures encoder.Valid() && encoder.start == old(encoder.start)
    ensures encoder.items == old(encoder.items) + CustomNameItems(record)
  {
    hide BytesAll, TextItem, OptionalImageItem;
    encoder.String(record.primarySpelling);
    encoder.String(record.reading);
    encoder.String(record.nameType);
    encoder.String(record.extraInfo);
    encoder.OptionalImage(record.image);
    assert encoder.items == old(encoder.items) + CustomNameItems(record);
  }

  method EncodeFrequency(encoder: Encoder, record: FrequencyRecord)
    requires encoder.Valid()
    modifies encoder
    ensures encoder.Valid() && encoder.start == old(encoder.start)
    ensures encoder.items == old(encoder.items) + FrequencyItems(record)
  {
    hide BytesAll, TextItem, IntItem;
    encoder.String(record.spelling);
    encoder.Number(record.frequency);
    assert encoder.items == old(encoder.items) + FrequencyItems(record);
  }

  method EncodeKanjiExamples(encoder: Encoder, record: KanjiExamplesRecord)
    requires encoder.Valid()
    modifies encoder
    ensures encoder.Valid() && encoder.start == old(encoder.start)
    ensures encoder.items == old(encoder.items) + KanjiExamplesItems(record)
  {
    hide BytesAll, TextItem, ExamplesItem;
    encoder.String(record.kanji);
    encoder.Examples(record.examples);
    assert encoder.items == old(encoder.items) + KanjiExamplesItems(record);
  }

  method EncodeKanjiComponents(encoder: Encoder, record: KanjiComponentsRecord)
    requires encoder.Valid()
    modifies encoder
    ensures encoder.Valid() && encoder.start == old(encoder.start)
    ensures encoder.items == old(encoder.items) + KanjiComponentsItems(record)
  {
    hide BytesAll, TextItem, TextsItem;
    encoder.String(record.kanji);
    encoder.StringList(record.components);
    assert encoder.items == old(encoder.items) + KanjiComponentsItems(record);
  }

  /** encodeRecord(): the payload is the bytes of one item, the array of the version, the kind and the
      record's fields. */
  method EncodeRecord<D>(record: Record<D>) returns (payload: Bytes)
    ensures payload == ItemBytes(PayloadItem(record.data))
    ensures payload != []
  {
    hide ItemBytes, IntItem, JmdictItems, JmnedictItems, KanjidicItems, YomitanTermItems, YomitanKanjiItems,
         PitchAccentItems, CustomWordItems, CustomNameItems, FrequencyItems, KanjiExamplesItems,
         KanjiComponentsItems;
    var encoder := new Encoder();
    encoder.StartRecord(KindOf(record.data));
    match record.data {
      case Jmdict(data) => EncodeJmdict(encoder, data);
      case Jmnedict(data) => EncodeJmnedict(encoder, data);
      case Kanjidic(data) => EncodeKanjidic(encoder, data);
      case YomitanTerm(data) => EncodeYomitanTerm(encoder, data);
      case YomitanKanji(data) => EncodeYomitanKanji(encoder, data);
      case PitchAccent(data) => EncodePitchAccent(encoder, data);
      case CustomWord(data) => EncodeCustomWord(encoder, data);
      case CustomName(data) => EncodeCustomName(encoder, data);
      case Frequency(data) => EncodeFrequency(encoder, data);
      case KanjiExamples(data) => EncodeKanjiExamples(encoder, data);
      case KanjiComponents(data) => EncodeKanjiComponents(encoder, data);
    }
    assert encoder.items == PayloadItem(record.data).items;
    encoder.EndRecord();
    payload := encoder.buffer;
  }
}
