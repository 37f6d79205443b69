/** What encodeRecord() and decodeRecord() promise together (src/dict/codec.h). */
module Codec {
  import opened Basics
  import opened Cbor
  import opened CborReader
  import opened Records
  import opened RecordFields
  import opened RecordEncoder
  import opened RecordDecoder

  /** No string and no list of the record has 2^64 elements or more, the limit of a CBOR length. The
      source's lists and strings end at 2^63. */
  ghost predicate Writable(data: RecordData) {
    WellFormed(PayloadItem(data))
  }

  /** payloadKind(). */
  method PayloadKind(convert: int -> Double, payload: Bytes, ghost document: Item, ghost missing: Bytes)
    returns (kind: Option<int>)
    ensures WellFormed(document) && payload + missing == ItemBytes(document) ==>
      && (kind.Some? ==> HeaderOf(document) == kind)
      && (missing == [] ==> kind == HeaderOf(document))
  {
    hide StandsAt, Decoder.Where, ItemBytes, WellFormed;
    var decoder := new Decoder(convert, payload, document, missing);
    var header := ReadHeader(decoder, document, missing);
    if !header.ok || header.version != CODEC_VERSION {
      return None;
    }
    kind := Some(header.kind);
  }

  /** A record comes back from its payload, with id 0. */
  method RoundTrip<D>(convert: int -> Double, record: Record<D>) returns (back: Option<Record<D>>)
    requires Writable(record.data)
    ensures back == Some(record.(id := 0))
  {
    hide ItemBytes, Decoded, WellFormed, FieldItems;
    PayloadRoundTrip(convert, record.data, []);
    assert PayloadItem(record.data).items + [] == PayloadItem(record.data).items;
    var payload := EncodeRecord(record);
    assert payload + [] == payload;
    back := DecodeRecord(convert, record.dictType, payload, PayloadItem(record.data), []);
  }

  /** A payload with items added behind the record's fields still reads as the record. */
  method ReadExtended<D>(convert: int -> Double, record: Record<D>, payload: Bytes, ghost extra: seq<Item>)
    returns (back: Option<Record<D>>)
    requires Writable(record.data) && AllWellFormed(extra)
    requires payload == ItemBytes(OpenGroup(4, PayloadItem(record.data).items + extra))
    ensures back == Some(record.(id := 0))
  {
    hide ItemBytes, Decoded, FieldItems;
    ghost var document := OpenGroup(4, PayloadItem(record.data).items + extra);
    PayloadRoundTrip(convert, record.data, extra);
    assert payload + [] == payload;
    assert WellFormed(document) by {
      assert WellFormed(PayloadItem(record.data));
    }
    back := DecodeRecord(convert, record.dictType, payload, document, []);
  }

  /** A payload cut short anywhere reads as nothing. */
  method ReadTruncated<D>(convert: int -> Double, record: Record<D>, length: nat) returns (back: Option<Record<D>>)
    requires Writable(record.data) && length < |ItemBytes(PayloadItem(record.data))|
    ensures back == None
  {
    hide ItemBytes, Decoded, WellFormed;
    var payload := EncodeRecord(record);
    ExactPayload(record.data);
    assert payload[..length] + payload[length..] == payload;
    back := DecodeRecord(convert, record.dictType, payload[..length], PayloadItem(record.data), payload[length..]);
  }

  lemma ExactPayload(data: RecordData)
    ensures Exact(PayloadItem(data))
  {
    IntRoundTrip(CODEC_VERSION);
    IntRoundTrip(KindOf(data));
  }

  /** Records with equal payloads are equal, and no payload begins another. */
  lemma PayloadsAreFaithful(a: RecordData, b: RecordData, s: Bytes, t: Bytes)
    requires Writable(a) && Writable(b)
    requires ItemBytes(PayloadItem(a)) + s == ItemBytes(PayloadItem(b)) + t
    ensures a == b && s == t
  {
    hide ItemBytes, Decoded, WellFormed, FieldItems;
    SelfDelimiting(PayloadItem(a), PayloadItem(b), s, t);
    PayloadRoundTrip(_ => 0, a, []);
    PayloadRoundTrip(_ => 0, b, []);
    assert PayloadItem(a).items + [] == PayloadItem(a).items;
    assert PayloadItem(b).items + [] == PayloadItem(b).items;
  }

  /** Exactly which headers are read. The version is narrowed to 32 bits before it is compared, so a
      version that differs from this build's by a multiple of 2^32 is read too. */
  lemma HeaderReadExactly(version: int, kind: int, fields: seq<Item>)
    requires -0x8000_0000_0000_0000 <= version < 0x8000_0000_0000_0000
    requires -0x8000_0000_0000_0000 <= kind < 0x8000_0000_0000_0000
    ensures HeaderOf(OpenGroup(4, [IntItem(version), IntItem(kind)] + fields)).Some? <==>
      (0 <= kind <= LAST_KIND && (version - CODEC_VERSION) % 0x1_0000_0000 == 0)
    ensures HeaderOf(OpenGroup(4, [IntItem(0x1_0000_0001), IntItem(0)] + fields)) == Some(0)
  {
    hide IntOf, IntItem;
    IntRoundTrip(version);
    IntRoundTrip(kind);
    IntRoundTrip(0x1_0000_0001);
    IntRoundTrip(0);
    var items, wrapped := [IntItem(version), IntItem(kind)] + fields, [IntItem(0x1_0000_0001), IntItem(0)] + fields;
    assert items[0] == IntItem(version) && items[1] == IntItem(kind);
    assert wrapped[0] == IntItem(0x1_0000_0001) && wrapped[1] == IntItem(0);
  }
}
