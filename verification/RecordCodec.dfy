/** The record codec is one the store may be built over (src/dict/store.cpp, src/dict/codec.cpp). */
module RecordCodec {
  import opened Basics
  import opened Cbor
  import opened Records
  import opened RecordFields
  import opened RecordDecoder
  import C = Codec
  import S = StoreIndex

  /** The records a payload can be written of. */
  type StoredRecord = data: RecordData | C.Writable(data) ghost witness Frequency(FrequencyRecord([], 0))

  ghost function Encode(data: RecordData): Bytes {
    ItemBytes(PayloadItem(data))
  }

  /** What decodeRecord() answers for the payload of a row: the record its one document decodes to. */
  ghost function Decode(convert: int -> Double, payload: S.Payload): Option<RecordData> {
    if document: Item :| WellFormed(document) && ItemBytes(document) == payload then
      Decoded(convert, document)
    else None
  }

  /** The payload of a row holds one document. */
  lemma DecodesDocument(convert: int -> Double, document: Item)
    requires WellFormed(document)
    ensures Decode(convert, ItemBytes(document)) == Decoded(convert, document)
  {
    hide ItemBytes, WellFormed, Decoded;
    forall other: Item | WellFormed(other) && ItemBytes(other) == ItemBytes(document)
      ensures other == document
    {
      assert ItemBytes(other) + [] == ItemBytes(document) + [];
      SelfDelimiting(other, document, [], []);
    }
  }

  /** Decode is what the decoder computes on the payload of a row. */
  method ReadRow<D>(convert: int -> Double, dictType: D, payload: Bytes, ghost document: Item)
    returns (record: Option<Record<D>>)
    requires WellFormed(document) && payload == ItemBytes(document)
    ensures var data := Decode(convert, payload);
      record == if data.Some? then Some(Record(0, dictType, data.value)) else None
  {
    hide ItemBytes, WellFormed, Decoded, Decode;
    DecodesDocument(convert, document);
    assert payload + [] == payload;
    record := DecodeRecord(convert, dictType, payload, document, []);
  }

  ghost function EncodeStored(data: StoredRecord): S.Payload {
    Encode(data)
  }

  ghost function DecodeStored(convert: int -> Double, payload: S.Payload): Option<StoredRecord> {
    var data := Decode(convert, payload);
    if data.Some? && C.Writable(data.value) then
      var stored: StoredRecord := data.value;
      Some(stored)
    else None
  }

  /** The record codec with a digest of payloads, as the store takes it. */
  ghost function StoreCodec(convert: int -> Double, digest: S.Payload -> int): S.Codec<StoredRecord> {
    S.Codec(EncodeStored, (payload: S.Payload) => DecodeStored(convert, payload), digest)
  }

  /** What the store asks of a codec holds of the record codec, when digests do not collide. */
  lemma StoreCodecHolds(convert: int -> Double, digest: S.Payload -> int)
    requires forall p, q :: digest(p) == digest(q) ==> p == q
    ensures S.CodecOk(StoreCodec(convert, digest))
  {
    hide ItemBytes, Decoded, Decode;
    forall data: StoredRecord
      ensures Decode(convert, Encode(data)) == Some(data) && Encode(data) != []
    {
      DecodesDocument(convert, PayloadItem(data));
      PayloadRoundTrip(convert, data, []);
      assert PayloadItem(data).items + [] == PayloadItem(data).items;
      NotEmpty(data);
    }
  }

  lemma NotEmpty(data: RecordData)
    ensures Encode(data) != []
  {
  }
}
