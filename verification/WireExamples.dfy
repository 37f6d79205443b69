/** The bytes of the items payloads are made of, on the examples of RFC 8949, appendix A. */
module WireExamples {
  import opened Basics
  import opened Cbor
  import opened RecordFields
  import opened Records

  lemma InTheHead(value: nat)
    requires value < 24
    ensures ItemBytes(Scalar(0, InHead, value)) == [value] && ItemBytes(Scalar(1, InHead, value)) == [0x20 + value]
  {
  }

  lemma SmallIntegers()
    ensures ItemBytes(IntItem(0)) == [0x00] && ItemBytes(IntItem(23)) == [0x17]
    ensures ItemBytes(IntItem(-1)) == [0x20] && ItemBytes(IntItem(-10)) == [0x29]
  {
    hide ItemBytes;
    InTheHead(0);
    InTheHead(23);
    InTheHead(9);
  }

  lemma Integers()
    ensures ItemBytes(IntItem(24)) == [0x18, 0x18] && ItemBytes(IntItem(100)) == [0x18, 0x64]
    ensures ItemBytes(IntItem(-100)) == [0x38, 0x63]
  {
    hide BigEndian;
    BigEndianOne(24);
    BigEndianOne(100);
    BigEndianOne(99);
  }

  lemma LongerIntegers()
    ensures ItemBytes(IntItem(1000)) == [0x19, 0x03, 0xe8]
    ensures ItemBytes(IntItem(-1000)) == [0x39, 0x03, 0xe7]
    ensures ItemBytes(IntItem(1_000_000)) == [0x1a, 0x00, 0x0f, 0x42, 0x40]
    ensures ItemBytes(IntItem(1_000_000_000_000)) == [0x1b, 0x00, 0x00, 0x00, 0xe8, 0xd4, 0xa5, 0x10, 0x00]
  {
    hide BigEndian;
    BigEndianTwo(1000);
    BigEndianTwo(999);
    BigEndianFour(1_000_000);
    BigEndianEight(1_000_000_000_000);
  }

  lemma SimpleValues()
    ensures ItemBytes(BoolItem(false)) == [0xf4] && ItemBytes(BoolItem(true)) == [0xf5]
    ensures ItemBytes(NULL_ITEM) == [0xf6]
  {
  }

  /** 1.1 as a double. */
  lemma Doubles()
    ensures ItemBytes(RealItem(0x3ff1_9999_9999_999a)) == [0xfb, 0x3f, 0xf1, 0x99, 0x99, 0x99, 0x99, 0x99, 0x9a]
  {
    hide BigEndian;
    BigEndianEight(0x3ff1_9999_9999_999a);
  }

  lemma Texts()
    ensures ItemBytes(TextItem([])) == [0x60]
    ensures ItemBytes(TextItem([0x61])) == [0x61, 0x61]
    ensures ItemBytes(TextItem([0x49, 0x45, 0x54, 0x46])) == [0x64, 0x49, 0x45, 0x54, 0x46]
    ensures ItemBytes(TextItem([0xc3, 0xbc])) == [0x62, 0xc3, 0xbc]
  {
  }

  lemma Arrays()
    ensures ItemBytes(ArrayItem([])) == [0x80]
    ensures ItemBytes(ArrayItem([IntItem(1), IntItem(2), IntItem(3)])) == [0x83, 0x01, 0x02, 0x03]
    ensures ItemBytes(OpenGroup(4, [])) == [0x9f, 0xff]
    ensures ItemBytes(OpenGroup(4, [IntItem(1), ArrayItem([IntItem(2), IntItem(3)])])) ==
      [0x9f, 0x01, 0x82, 0x02, 0x03, 0xff]
  {
    var one, two, three := IntItem(1), IntItem(2), IntItem(3);
    assert [two, three][1..] == [three] && [three][1..] == [];
    assert [one, two, three][1..] == [two, three];
    assert BytesAll([three]) == [3] && BytesAll([two, three]) == [2, 3] && BytesAll([one, two, three]) == [1, 2, 3];
    var pair := ArrayItem([two, three]);
    assert ItemBytes(pair) == [0x82, 2, 3];
    assert [one, pair][1..] == [pair] && [pair][1..] == [];
    assert BytesAll([pair]) == [0x82, 2, 3] && BytesAll([one, pair]) == [1, 0x82, 2, 3];
  }

  /** The payload of a frequency record: an open array of the version, the kind and the fields. */
  lemma FrequencyPayload()
    ensures ItemBytes(PayloadItem(Frequency(FrequencyRecord([0xe6, 0x96, 0x87], 300)))) ==
      [0x9f, 0x01, 0x08, 0x63, 0xe6, 0x96, 0x87, 0x19, 0x01, 0x2c, 0xff]
  {
    hide ItemBytes, IntItem, TextItem, PayloadItem;
    FrequencyItem();
    FrequencyParts();
    FourItems(IntItem(1), IntItem(8), TextItem([0xe6, 0x96, 0x87]), IntItem(300));
    OpenArray([IntItem(1), IntItem(8), TextItem([0xe6, 0x96, 0x87]), IntItem(300)]);
  }

  lemma FrequencyItem()
    ensures PayloadItem(Frequency(FrequencyRecord([0xe6, 0x96, 0x87], 300))) ==
      OpenGroup(4, [IntItem(1), IntItem(8), TextItem([0xe6, 0x96, 0x87]), IntItem(300)])
  {
    hide IntItem, TextItem;
    assert FieldItems(Frequency(FrequencyRecord([0xe6, 0x96, 0x87], 300))) ==
      [TextItem([0xe6, 0x96, 0x87]), IntItem(300)];
  }

  lemma FrequencyParts()
    ensures ItemBytes(IntItem(1)) == [0x01] && ItemBytes(IntItem(8)) == [0x08]
    ensures ItemBytes(TextItem([0xe6, 0x96, 0x87])) == [0x63, 0xe6, 0x96, 0x87]
    ensures ItemBytes(IntItem(300)) == [0x19, 0x01, 0x2c]
  {
    hide BigEndian;
    BigEndianTwo(300);
  }

  lemma OpenArray(items: seq<Item>)
    ensures ItemBytes(OpenGroup(4, items)) == [0x9f] + BytesAll(items) + [0xff]
  {
    hide BytesAll;
  }

  lemma FirstOf(item: Item, rest: seq<Item>)
    ensures BytesAll([item] + rest) == ItemBytes(item) + BytesAll(rest)
  {
    assert ([item] + rest)[1..] == rest;
  }

  lemma FourItems(a: Item, b: Item, c: Item, d: Item)
    ensures BytesAll([a, b, c, d]) == ItemBytes(a) + (ItemBytes(b) + (ItemBytes(c) + (ItemBytes(d) + BytesAll([]))))
  {
    hide ItemBytes, BytesAll;
    FirstOf(a, [b, c, d]);
    FirstOf(b, [c, d]);
    FirstOf(c, [d]);
    FirstOf(d, []);
    assert [a] + [b, c, d] == [a, b, c, d];
    assert [b] + [c, d] == [b, c, d];
    assert [c] + [d] == [c, d];
    assert [d] + [] == [d];
  }

  // ---------------------------------------------------------------- arguments behind a head

  lemma BigEndianOne(value: nat)
    ensures BigEndian(value, 1) == [value % 256]
  {
    assert BigEndian(value / 256, 0) == [];
  }

  lemma BigEndianTwo(value: nat)
    ensures BigEndian(value, 2) == [value / 256 % 256, value % 256]
  {
    BigEndianOne(value / 256);
  }

  lemma BigEndianStep(value: nat, size: nat)
    requires size > 0
    ensures BigEndian(value, size) == BigEndian(value / 256, size - 1) + [value % 256]
  {
  }

  lemma BigEndianFour(value: nat)
    ensures BigEndian(value, 4) ==
      [value / 256 / 256 / 256 % 256, value / 256 / 256 % 256, value / 256 % 256, value % 256]
  {
    hide BigEndian;
    BigEndianStep(value, 4);
    BigEndianStep(value / 256, 3);
    BigEndianTwo(value / 256 / 256);
  }

  lemma BigEndianEight(value: nat)
    ensures var high := value / 256 / 256 / 256 / 256;
      BigEndian(value, 8) ==
        [high / 256 / 256 / 256 % 256, high / 256 / 256 % 256, high / 256 % 256, high % 256,
         value / 256 / 256 / 256 % 256, value / 256 / 256 % 256, value / 256 % 256, value % 256]
  {
    var a := value / 256;
    var b := a / 256;
    var c := b / 256;
    var high := c / 256;
    hide BigEndian;
    BigEndianStep(value, 8);
    BigEndianStep(a, 7);
    BigEndianStep(b, 6);
    BigEndianStep(c, 5);
    BigEndianFour(value);
    BigEndianFour(high);
  }
}
