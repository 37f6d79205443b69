/** CBOR data items as bytes, and the streaming reader the codec pulls them from (RFC 8949, section 3). */
module Cbor {
  import opened Basics

  type Byte = b: int | 0 <= b < 256
  type Bytes = seq<Byte>
  type Major = m: nat | m < 8

  const BREAK: Byte := 0xff

  // ---------------------------------------------------------------- heads

  /** Where the argument of a head is: in the head byte, or in the 1, 2, 4 or 8 bytes after it. */
  datatype Width = InHead | One | Two | Four | Eight

  function Size(width: Width): nat {
    match width
    case InHead => 0
    case One => 1
    case Two => 2
    case Four => 4
    case Eight => 8
  }

  predicate Fits(width: Width, value: nat) {
    match width
    case InHead => value < 24
    case One => value < 0x100
    case Two => value < 0x1_0000
    case Four => value < 0x1_0000_0000
    case Eight => value < 0x1_0000_0000_0000_0000
  }

  /** The preferred serialization of section 4.1: the narrowest width the argument fits. */
  function Shortest(value: nat): (width: Width)
    ensures value < 0x1_0000_0000_0000_0000 ==> Fits(width, value)
    ensures forall other :: Fits(other, value) ==> Size(width) <= Size(other)
  {
    if value < 24 then InHead
    else if value < 0x100 then One
    else if value < 0x1_0000 then Two
    else if value < 0x1_0000_0000 then Four
    else Eight
  }

  function BigEndian(value: nat, size: nat): (bytes: Bytes)
    ensures |bytes| == size
  {
    if size == 0 then [] else BigEndian(value / 256, size - 1) + [value % 256]
  }

  function Unsigned(bytes: Bytes): nat {
    if bytes == [] then 0 else Unsigned(Front(bytes)) * 256 + Last(bytes)
  }

  function Power256(size: nat): nat {
    if size == 0 then 1 else 256 * Power256(size - 1)
  }

  lemma {:induction false} UnsignedOfBigEndian(value: nat, size: nat)
    requires value < Power256(size)
    ensures Unsigned(BigEndian(value, size)) == value
  {
    if size > 0 {
      var bytes := BigEndian(value, size);
      assert Front(bytes) == BigEndian(value / 256, size - 1);
      UnsignedOfBigEndian(value / 256, size - 1);
    }
  }

  lemma FitsPower(width: Width, value: nat)
    requires Fits(width, value) && width != InHead
    ensures value < Power256(Size(width))
  {
    assert Power256(2) == 0x1_0000;
    assert Power256(4) == 256 * (256 * Power256(2));
    assert Power256(6) == 256 * (256 * Power256(4));
    assert Power256(8) == 256 * (256 * Power256(6));
  }

  function Info(width: Width): nat
    requires width != InHead
  {
    match width
    case One => 24
    case Two => 25
    case Four => 26
    case Eight => 27
  }

  function HeadBytes(major: Major, width: Width, value: nat): (bytes: Bytes)
    ensures |bytes| == 1 + Size(width)
  {
    if width == InHead then [major * 32 + value % 24] else [major * 32 + Info(width)] + BigEndian(value, Size(width))
  }

  function OpenByte(major: Major): Byte {
    major * 32 + 31
  }

  /** A head that was read. OpenHead(7) is the break. */
  datatype Head = Head(major: Major, width: Width, value: nat) | OpenHead(major: Major)

  function HeadSize(head: Head): nat {
    if head.OpenHead? then 1 else 1 + Size(head.width)
  }

  function WidthOf(info: nat): Width
    requires 24 <= info < 28
  {
    if info == 24 then One else if info == 25 then Two else if info == 26 then Four else Eight
  }

  /** The head bytes begin with: None when they end inside it or when no head begins so. */
  function ParseHead(bytes: Bytes): (head: Option<Head>)
    ensures head.Some? ==> HeadSize(head.value) <= |bytes|
  {
    if bytes == [] then None
    else
      var major, info := bytes[0] / 32, bytes[0] % 32;
      if info < 24 then Some(Head(major, InHead, info))
      else if info < 28 then
        var width := WidthOf(info);
        if |bytes| < 1 + Size(width) then None
        else
          var value := Unsigned(bytes[1..1 + Size(width)]);
          if major == 7 && width == One && value < 32 then None else Some(Head(major, width, value))
      else if info == 31 && (2 <= major <= 5 || major == 7) then Some(OpenHead(major))
      else None
  }

  lemma HeadParses(major: Major, width: Width, value: nat, tail: Bytes)
    requires Fits(width, value) && !(major == 7 && width == One && value < 32)
    ensures ParseHead(HeadBytes(major, width, value) + tail) == Some(Head(major, width, value))
  {
    var bytes := HeadBytes(major, width, value) + tail;
    if width != InHead {
      FitsPower(width, value);
      UnsignedOfBigEndian(value, Size(width));
      assert bytes[1..1 + Size(width)] == BigEndian(value, Size(width));
      assert bytes[0] % 32 == Info(width) && bytes[0] / 32 == major;
      assert WidthOf(Info(width)) == width;
    }
  }

  lemma OpenHeadParses(major: Major, tail: Bytes)
    requires 2 <= major <= 5
    ensures ParseHead([OpenByte(major)] + tail) == Some(OpenHead(major))
  {
    var bytes := [OpenByte(major)] + tail;
    assert bytes[0] % 32 == 31 && bytes[0] / 32 == major;
  }

  /** More bytes behind a head do not change it. */
  lemma HeadIsSelfDelimiting(bytes: Bytes, more: Bytes)
    requires ParseHead(bytes).Some?
    ensures ParseHead(bytes + more) == ParseHead(bytes)
  {
    var head := ParseHead(bytes).value;
    assert (bytes + more)[0] == bytes[0];
    if head.Head? && head.width != InHead {
      assert (bytes + more)[1..1 + Size(head.width)] == bytes[1..1 + Size(head.width)];
    }
  }

  // ---------------------------------------------------------------- items

  /** A data item with the encoding it has: integers and simple values (floats among them), strings in
      one piece or in chunks (strings themselves), arrays and maps of either length form, tagged items. A map lists its
      keys and values in turn. */
  datatype Item =
    | Scalar(major: Major, width: Width, value: nat)
    | Chars(major: Major, width: Width, content: Bytes)
    | OpenChars(major: Major, chunks: seq<Item>)
    | Group(major: Major, width: Width, items: seq<Item>)
    | OpenGroup(major: Major, items: seq<Item>)
    | Tagged(width: Width, number: nat, item: Item)

  function GroupCount(major: Major, items: seq<Item>): nat {
    if major == 5 then |items| / 2 else |items|
  }

  ghost predicate WellFormed(item: Item)
    decreases item
  {
    match item
    case Scalar(major, width, value) =>
      major in {0, 1, 7} && Fits(width, value) && !(major == 7 && width == One && value < 32)
    case Chars(major, width, content) => major in {2, 3} && Fits(width, |content|)
    case OpenChars(major, chunks) =>
      && major in {2, 3}
      && forall i :: 0 <= i < |chunks| ==> WellFormed(chunks[i]) && chunks[i].Chars? && chunks[i].major == major
    case Group(major, width, items) =>
      && major in {4, 5} && Fits(width, GroupCount(major, items)) && (major == 5 ==> |items| % 2 == 0)
      && forall i :: 0 <= i < |items| ==> WellFormed(items[i])
    case OpenGroup(major, items) =>
      && major in {4, 5} && (major == 5 ==> |items| % 2 == 0)
      && forall i :: 0 <= i < |items| ==> WellFormed(items[i])
    case Tagged(width, number, inner) => Fits(width, number) && WellFormed(inner)
  }

  ghost predicate AllWellFormed(items: seq<Item>) {
    forall i :: 0 <= i < |items| ==> WellFormed(items[i])
  }

  /** The string that chunks make up. */
  function ChunkContent(chunks: seq<Item>): Bytes {
    if chunks == [] || !chunks[0].Chars? then [] else chunks[0].content + ChunkContent(chunks[1..])
  }

  function ItemBytes(item: Item): Bytes
    decreases item
  {
    match item
    case Scalar(major, width, value) => HeadBytes(major, width, value)
    case Chars(major, width, content) => HeadBytes(major, width, |content|) + content
    case OpenChars(major, chunks) => [OpenByte(major)] + BytesAll(chunks) + [BREAK]
    case Group(major, width, items) => HeadBytes(major, width, GroupCount(major, items)) + BytesAll(items)
    case OpenGroup(major, items) => [OpenByte(major)] + BytesAll(items) + [BREAK]
    case Tagged(width, number, inner) => HeadBytes(6, width, number) + ItemBytes(inner)
  }

  function BytesAll(items: seq<Item>): Bytes
    decreases items
  {
    if items == [] then [] else ItemBytes(items[0]) + BytesAll(items[1..])
  }

  lemma {:induction false} BytesOfConcat(items: seq<Item>, more: seq<Item>)
    ensures BytesAll(items + more) == BytesAll(items) + BytesAll(more)
    decreases |items|
  {
    if items == [] {
      assert items + more == more;
    } else {
      assert (items + more)[1..] == items[1..] + more;
      BytesOfConcat(items[1..], more);
    }
  }

  lemma BytesOfPush(items: seq<Item>, item: Item)
    ensures BytesAll(items + [item]) == BytesAll(items) + ItemBytes(item)
  {
    BytesOfConcat(items, [item]);
    assert BytesAll([item]) == ItemBytes(item) + BytesAll([]);
  }

  function FirstHead(item: Item): Head {
    match item
    case Scalar(major, width, value) => Head(major, width, value)
    case Chars(major, width, content) => Head(major, width, |content|)
    case OpenChars(major, _) => OpenHead(major)
    case Group(major, width, items) => Head(major, width, GroupCount(major, items))
    case OpenGroup(major, _) => OpenHead(major)
    case Tagged(width, number, _) => Head(6, width, number)
  }

  /** The bytes of an item behind its first head. */
  function Body(item: Item): Bytes {
    match item
    case Scalar(_, _, _) => []
    case Chars(_, _, content) => content
    case OpenChars(major, chunks) => BytesAll(chunks) + [BREAK]
    case Group(_, _, items) => BytesAll(items)
    case OpenGroup(_, items) => BytesAll(items) + [BREAK]
    case Tagged(_, _, inner) => ItemBytes(inner)
  }

  predicate HeadOk(head: Head) {
    if head.OpenHead? then 2 <= head.major <= 5
    else Fits(head.width, head.value) && !(head.major == 7 && head.width == One && head.value < 32)
  }

  function HeadEncoding(head: Head): Bytes {
    if head.OpenHead? then [OpenByte(head.major)] else HeadBytes(head.major, head.width, head.value)
  }

  lemma HeadStarts(head: Head, tail: Bytes)
    requires HeadOk(head)
    ensures ParseHead(HeadEncoding(head) + tail) == Some(head)
    ensures |HeadEncoding(head)| == HeadSize(head) && HeadEncoding(head)[0] != BREAK
  {
    hide ParseHead;
    if head.OpenHead? {
      OpenHeadParses(head.major, tail);
    } else {
      HeadParses(head.major, head.width, head.value, tail);
    }
  }

  lemma ItemSplits(item: Item)
    requires WellFormed(item)
    ensures HeadOk(FirstHead(item)) && ItemBytes(item) == HeadEncoding(FirstHead(item)) + Body(item)
  {
    hide HeadBytes;
    match item
    case Scalar(major, width, value) =>
      assert HeadBytes(major, width, value) + [] == HeadBytes(major, width, value);
    case OpenChars(major, chunks) =>
      assert [OpenByte(major)] + BytesAll(chunks) + [BREAK] == [OpenByte(major)] + (BytesAll(chunks) + [BREAK]);
    case OpenGroup(major, items) =>
      assert [OpenByte(major)] + BytesAll(items) + [BREAK] == [OpenByte(major)] + (BytesAll(items) + [BREAK]);
    case _ =>
  }

  lemma ItemStarts(item: Item, tail: Bytes)
    requires WellFormed(item)
    ensures ParseHead(ItemBytes(item) + tail) == Some(FirstHead(item)) && HeadOk(FirstHead(item))
    ensures ItemBytes(item) != [] && ItemBytes(item)[0] != BREAK
    ensures HeadSize(FirstHead(item)) <= |ItemBytes(item)|
    ensures ItemBytes(item)[HeadSize(FirstHead(item))..] == Body(item)
  {
    hide *;
    var head := FirstHead(item);
    ItemSplits(item);
    HeadStarts(head, Body(item) + tail);
    assert ItemBytes(item) + tail == HeadEncoding(head) + (Body(item) + tail);
    HeadSizes(head);
    assert ItemBytes(item)[0] == HeadEncoding(head)[0];
  }

  lemma HeadSizes(head: Head)
    ensures HeadSize(head) >= 1
  {
  }

  // ---------------------------------------------------------------- self-delimitation

  /** Heads that begin the same bytes are equal, and so is what follows them. */
  lemma SameFirstHead(a: Item, b: Item, s: Bytes, t: Bytes)
    requires WellFormed(a) && WellFormed(b) && ItemBytes(a) + s == ItemBytes(b) + t
    ensures FirstHead(a) == FirstHead(b) && Body(a) + s == Body(b) + t
  {
    hide *;
    ItemStarts(a, s);
    ItemStarts(b, t);
    var size := HeadSize(FirstHead(a));
    assert (ItemBytes(a) + s)[size..] == Body(a) + s;
    assert (ItemBytes(b) + t)[size..] == Body(b) + t;
  }

  /** An item ends where its own bytes say: no item's bytes begin another item's. */
  lemma {:induction false} SelfDelimiting(a: Item, b: Item, s: Bytes, t: Bytes)
    requires WellFormed(a) && WellFormed(b) && ItemBytes(a) + s == ItemBytes(b) + t
    ensures a == b && s == t
    decreases a, 0
  {
    hide HeadBytes;
    hide ItemBytes;
    SameFirstHead(a, b, s, t);
    match a
    case Scalar(_, _, _) =>
      assert a == b;
      assert [] + s == s && [] + t == t;
    case Chars(_, _, content) =>
      assert (content + s)[..|content|] == content && (b.content + t)[..|content|] == b.content;
      assert (content + s)[|content|..] == s && (b.content + t)[|content|..] == t;
    case OpenChars(_, chunks) =>
      assert BytesAll(chunks) + ([BREAK] + s) == Body(a) + s == Body(b) + t == BytesAll(b.chunks) + ([BREAK] + t);
      SameItemsToBreak(chunks, b.chunks, s, t);
    case Group(major, _, items) =>
      SameItems(items, b.items, s, t);
    case OpenGroup(major, items) =>
      assert BytesAll(items) + ([BREAK] + s) == Body(a) + s == Body(b) + t == BytesAll(b.items) + ([BREAK] + t);
      SameItemsToBreak(items, b.items, s, t);
    case Tagged(_, _, inner) =>
      SelfDelimiting(inner, b.item, s, t);
  }

  lemma {:induction false} SameItems(xs: seq<Item>, ys: seq<Item>, s: Bytes, t: Bytes)
    requires AllWellFormed(xs) && AllWellFormed(ys) && |xs| == |ys| && BytesAll(xs) + s == BytesAll(ys) + t
    ensures xs == ys && s == t
    decreases xs, 1
  {
    hide ItemBytes;
    if xs == [] {
      assert [] + s == s && [] + t == t;
    } else {
      assert ItemBytes(xs[0]) + (BytesAll(xs[1..]) + s) == BytesAll(xs) + s == BytesAll(ys) + t
          == ItemBytes(ys[0]) + (BytesAll(ys[1..]) + t);
      SelfDelimiting(xs[0], ys[0], BytesAll(xs[1..]) + s, BytesAll(ys[1..]) + t);
      SameItems(xs[1..], ys[1..], s, t);
    }
  }

  lemma NoBreakFirst(items: seq<Item>, tail: Bytes)
    requires AllWellFormed(items) && items != []
    ensures BytesAll(items) + tail != [] && (BytesAll(items) + tail)[0] != BREAK
  {
    hide ItemBytes;
    ItemStarts(items[0], BytesAll(items[1..]) + tail);
  }

  lemma {:induction false} SameItemsToBreak(xs: seq<Item>, ys: seq<Item>, s: Bytes, t: Bytes)
    requires AllWellFormed(xs) && AllWellFormed(ys) && BytesAll(xs) + ([BREAK] + s) == BytesAll(ys) + ([BREAK] + t)
    ensures xs == ys && s == t
    decreases xs, 1
  {
    hide ItemBytes;
    var u, v := [BREAK] + s, [BREAK] + t;
    if xs == [] || ys == [] {
      assert BytesAll([]) + u == u && BytesAll([]) + v == v;
      if xs != [] {
        NoBreakFirst(xs, u);
      } else if ys != [] {
        NoBreakFirst(ys, v);
      } else {
        assert s == u[1..] == v[1..] == t;
      }
    } else {
      assert ItemBytes(xs[0]) + (BytesAll(xs[1..]) + u) == BytesAll(xs) + u == BytesAll(ys) + v
          == ItemBytes(ys[0]) + (BytesAll(ys[1..]) + v);
      SelfDelimiting(xs[0], ys[0], BytesAll(xs[1..]) + u, BytesAll(ys[1..]) + v);
      SameItemsToBreak(xs[1..], ys[1..], s, t);
    }
  }
}
