/** Reading records: the decoder with its sticky error flag and the per-kind decoders
    (src/dict/codec.cpp). Each reads exactly what its shape reads from the items of the document, whole
    or cut short. */
module RecordDecoder {
  import opened Basics
  import opened Cbor
  import opened CborReader
  import opened Records
  import opened RecordFields

  function Ahead(place: Place, count: nat): Place {
    place.(level := place.level.(at := place.level.at + count))
  }

  /** What read makes of the next item. */
  ghost function Field<T>(place: Option<Place>, read: Item -> Option<T>): Option<T> {
    if place.Some? && place.value.level.at < |place.value.level.items|
    then read(place.value.level.items[place.value.level.at])
    else None
  }

  /** A read of count items from before: when it is ok it has read what was there and stands behind it;
      it is ok when what is there can be read and nothing of the document is missing. */
  ghost predicate Reads<T>(before: Option<Place>, there: Option<T>, value: T, ok: bool, after: Option<Place>,
                           count: nat)
  {
    before.Some? ==>
      && (ok ==> there == Some(value) && after == Some(Ahead(before.value, count)))
      && (there.Some? && before.value.missing == [] ==> ok)
  }

  /** A read that is ok has used up bytes. */
  predicate Drains(restBefore: nat, ok: bool, rest: nat) {
    rest <= restBefore && (ok ==> rest < restBefore)
  }

  ghost predicate Enters(before: Option<Place>, ok: bool, after: Option<Place>) {
    before.Some? ==>
      var there := Field(before, (i: Item) => if IsArray(i) then Some(i) else None);
      && (ok ==> there.Some? && after == Some(Inside(before.value, there.value.items, there.value.OpenGroup?)))
      && (there.Some? && before.value.missing == [] ==> ok)
  }

  ghost predicate Leaves(before: Option<Place>, ok: bool, after: Option<Place>) {
    before.Some? && before.value.above != [] ==>
      && (ok ==> after == Some(Outside(before.value)))
      && (before.value.missing == [] ==> ok)
  }

  /** The reader stands further on in the container where it stood before. */
  ghost predicate Stays(before: Place, r: Reader, after: Place) {
    && (!r.failed ==> StandsAt(r, after) && after.above == before.above && after.missing == before.missing)
    && (before.missing == [] ==> !r.failed)
  }

  ghost predicate IsInside(inner: Place, place: Place) {
    inner.missing == place.missing && inner.above != [] && inner.above[1..] == place.above
  }

  lemma Sees(r: Reader, place: Place)
    requires StandsAt(r, place)
    ensures HasNext(r) <==> place.level.at < |place.level.items|
    ensures HasNext(r) ==> WellFormed(place.level.items[place.level.at])
    ensures Peek(r) == if HasNext(r) then Some(FirstHead(place.level.items[place.level.at])) else None
    ensures place.level.at <= |place.level.items| && !r.failed
  {
    hide Settle;
    if place.level.at < |place.level.items| {
      AtItem(r, place);
    } else {
      AtNothing(r, place);
    }
  }

  /** The values read from the first items of a list. */
  ghost predicate ListRead<T>(inside: Option<Place>, read: Item -> Option<T>, values: seq<T>, ok: bool,
                              now: Option<Place>)
  {
    inside.Some? ==>
      var items := inside.value.level.items;
      && (ok ==>
            && inside.value.level.at == 0 && |values| <= |items| && now == Some(Ahead(inside.value, |values|))
            && forall i :: 0 <= i < |values| ==> read(items[i]) == Some(values[i]))
      && (inside.value.missing == [] && Each(read, items).Some? ==> ok)
  }

  lemma ListPushes<T>(inside: Option<Place>, read: Item -> Option<T>, values: seq<T>, before: Option<Place>, value: T,
                      ok: bool, after: Option<Place>)
    requires ListRead(inside, read, values, true, before)
    requires before.Some? ==> before.value.level.at < |before.value.level.items|
    requires Reads(before, Field(before, read), value, ok, after, 1)
    ensures ListRead(inside, read, values + [value], ok, after)
  {
    if inside.Some? {
      var items, more := inside.value.level.items, values + [value];
      assert Each(read, items).Some? ==> read(items[|values|]).Some?;
      if ok {
        forall i | 0 <= i < |more|
          ensures read(items[i]) == Some(more[i])
        {
          if i < |values| {
            assert more[i] == values[i];
          }
        }
      }
    }
  }

  lemma ListEnds<T>(from: Option<Place>, inside: Option<Place>, read: Item -> Option<T>, values: seq<T>, okInside: bool,
                    last: Option<Place>, ok: bool, after: Option<Place>)
    requires Enters(from, true, inside) && ListRead(inside, read, values, okInside, last)
    requires okInside && last.Some? ==> last.value.level.at == |last.value.level.items|
    requires (ok ==> okInside) && (okInside ==> Leaves(last, ok, after))
    ensures from.Some? ==>
      && var there := Field(from, (i: Item) => if IsArray(i) then Each(read, i.items) else None);
      && (ok ==> there == Some(values) && after == Some(Ahead(from.value, 1)))
      && (there.Some? && from.value.missing == [] ==> ok)
  {
    if from.Some? {
      var item := from.value.level.items[from.value.level.at];
      if okInside {
        assert Each(read, item.items).value == values;
      }
    }
  }

  ghost function ImageThere(convert: int -> Double, place: Option<Place>): Option<ImageInfo> {
    if place.Some? then ImageAt(convert, place.value.level.items, place.value.level.at) else None
  }

  /** A real number is read from the heads of doubles and of integers, and from no other. */
  lemma RealSeen(convert: int -> Double, item: Item)
    requires WellFormed(item)
    ensures var head := FirstHead(item);
      RealFrom(convert, item) ==
        if head.Head? && head.major == 7 && head.width == Eight && head.value < 0x1_0000_0000_0000_0000 then
          Some(head.value)
        else if head.Head? && head.major == 0 then Some(convert(ToInt64(head.value)))
        else if head.Head? && head.major == 1 then Some(convert(ToInt64(-1 - head.value)))
        else None
  {
  }

  class Decoder {
    const convert: int -> Double
    var reader: Reader
    var ok: bool
    ghost var place: Place

    /** Where the reader stands, as long as nothing has failed. */
    ghost function Where(): Option<Place>
      reads this
    {
      if ok && StandsAt(reader, place) then Some(place) else None
    }

    /** document is what the payload, with the missing bytes behind it, is the bytes of. */
    constructor (convert: int -> Double, payload: Bytes, ghost document: Item, ghost missing: Bytes)
      ensures ok && this.convert == convert
      ensures WellFormed(document) && payload + missing == ItemBytes(document) ==>
        && (!reader.failed ==> Where() == Some(Place(Level([document], 0, false), [], missing)))
        && (missing == [] ==> !reader.failed)
    {
      this.convert := convert;
      reader := Start(payload);
      ok := true;
      place := Place(Level([document], 0, false), [], missing);
      new;
      if WellFormed(document) && payload + missing == ItemBytes(document) {
        AtDocument(payload, document, missing);
      }
    }

    method EnterArray() returns (entered: bool)
      modifies this
      ensures entered == ok && Enters(old(Where()), ok, Where())
      ensures old(reader.failed) ==> !ok
      ensures Drains(old(|reader.rest|), ok, |reader.rest|) && (ok ==> old(ok))
    {
      hide Settle, Reaches;
      if !ok {
        return false;
      }
      ghost var from := Where();
      if from.Some? {
        Sees(reader, place);
      }
      if !NextIs(reader, {4}) {
        ok := false;
        return false;
      }
      if from.Some? {
        EnterSteps(reader, place);
        var item := place.level.items[place.level.at];
        place := Inside(place, item.items, item.OpenGroup?);
      }
      reader := Enter(reader);
      ok := !reader.failed;
      return ok;
    }

    /** m_reader.next() behind a value that is no container and no string. */
    method Pass()
      requires ok && Peek(reader).Some?
      modifies this
      ensures Drains(old(|reader.rest|), ok, |reader.rest|)
      ensures old(Where()).Some? && Field(old(Where()), (i: Item) => if i.Scalar? then Some(i) else None).Some? ==>
        && (ok ==> Where() == Some(Ahead(old(Where()).value, 1)))
        && (old(Where()).value.missing == [] ==> ok)
    {
      hide Reaches, Settle, Next;
      if Where().Some? && place.level.at < |place.level.items| && place.level.items[place.level.at].Scalar? {
        NextSteps(reader, place);
        place := Forward(place);
      }
      reader := Next(reader);
      ok := !reader.failed;
    }

    method Number() returns (value: int)
      modifies this
      ensures Reads(old(Where()), Field(old(Where()), IntOf), value, ok, Where(), 1)
      ensures Drains(old(|reader.rest|), ok, |reader.rest|) && (ok ==> old(ok))
    {
      hide StandsAt, ToInt64;
      if !ok {
        return 0;
      }
      if Where().Some? {
        Sees(reader, place);
      }
      if !NextIs(reader, {0, 1}) || !Peek(reader).value.Head? {
        ok := false;
        return 0;
      }
      var head := Peek(reader).value;
      value := ToInt64(if head.major == 0 then head.value else -1 - head.value);
      Pass();
    }

    method Number32() returns (value: Int32)
      modifies this
      ensures Reads(old(Where()), Field(old(Where()), Int32Of), value, ok, Where(), 1)
      ensures Drains(old(|reader.rest|), ok, |reader.rest|) && (ok ==> old(ok))
    {
      hide StandsAt, ToInt32, IntOf;
      var number := Number();
      value := ToInt32(number);
    }

    method Number8() returns (value: Byte)
      modifies this
      ensures Reads(old(Where()), Field(old(Where()), ByteOf), value, ok, Where(), 1)
      ensures Drains(old(|reader.rest|), ok, |reader.rest|) && (ok ==> old(ok))
    {
      hide StandsAt, ToByte, IntOf;
      var number := Number();
      value := ToByte(number);
    }

    method Real() returns (value: Double)
      modifies this
      ensures Reads(old(Where()), Field(old(Where()), RealOf(convert)), value, ok, Where(), 1)
      ensures Drains(old(|reader.rest|), ok, |reader.rest|) && (ok ==> old(ok))
    {
      hide StandsAt, ToInt64;
      if !ok {
        return 0;
      }
      ghost var from := Where();
      if from.Some? {
        Sees(reader, place);
        if HasNext(reader) {
          RealSeen(convert, place.level.items[place.level.at]);
        }
      }
      if NextIs(reader, {7}) && Peek(reader).value.Head? && Peek(reader).value.width == Eight
         && Peek(reader).value.value < 0x1_0000_0000_0000_0000 {
        value := Peek(reader).value.value;
        Pass();
      } else if NextIs(reader, {0, 1}) && Peek(reader).value.Head? {
        var head := Peek(reader).value;
        value := convert(ToInt64(if head.major == 0 then head.value else -1 - head.value));
        Pass();
      } else {
        ok := false;
        value := 0;
      }
    }

    method Boolean() returns (value: bool)
      modifies this
      ensures Reads(old(Where()), Field(old(Where()), BoolOf), value, ok, Where(), 1)
      ensures Drains(old(|reader.rest|), ok, |reader.rest|) && (ok ==> old(ok))
    {
      hide StandsAt;
      if !ok {
        return false;
      }
      if Where().Some? {
        Sees(reader, place);
      }
      var head := Peek(reader);
      if head != Some(Head(7, InHead, 20)) && head != Some(Head(7, InHead, 21)) {
        ok := false;
        return false;
      }
      value := head.value.value == 21;
      Pass();
    }

    method String() returns (value: Utf8)
      modifies this
      ensures Reads(old(Where()), Field(old(Where()), TextOf), value, ok, Where(), 1)
      ensures Drains(old(|reader.rest|), ok, |reader.rest|) && (ok ==> old(ok))
    {
      hide Reaches, Settle, ReadAll;
      if !ok {
        return [];
      }
      ghost var from := Where();
      if from.Some? {
        Sees(reader, place);
      }
      if !NextIs(reader, {3}) {
        ok := false;
        return [];
      }
      if from.Some? {
        StringSteps(reader, place);
        place := Forward(place);
      }
      var read := ReadAll(reader);
      value, reader := read.0, read.1;
      if reader.failed {
        ok := false;
      }
    }

    /** Skips what is left of the container, then leaves it. */
    method LeaveArray()
      modifies this
      ensures Leaves(old(Where()), ok, Where())
      ensures |reader.rest| <= old(|reader.rest|) && (ok ==> old(ok))
    {
      hide Reaches, Settle, Enter, Next, ReadAll;
      if !ok {
        return;
      }
      ghost var from := Where();
      if from.Some? {
        Sees(reader, place);
      }
      while HasNext(reader)
        invariant |reader.rest| <= old(|reader.rest|)
        invariant from.Some? ==> Stays(from.value, reader, place)
        decreases if reader.failed then 0 else |reader.rest| + 1
      {
        Skip();
      }
      if from.Some? && !reader.failed {
        Sees(reader, place);
        if place.above != [] {
          LeaveSteps(reader, place);
          place := Outside(place);
        }
      }
      reader := Leave(reader);
      ok := !reader.failed;
    }

    /** Reads past one item, into and out of a container; past a tag alone when a tag is next. */
    method Skip()
      requires HasNext(reader)
      modifies this
      ensures |reader.rest| <= old(|reader.rest|) && (!reader.failed ==> |reader.rest| < old(|reader.rest|))
      ensures old(StandsAt(reader, place)) ==> Stays(old(place), reader, place)
      decreases |reader.rest|, 0
    {
      hide Reaches, Settle, Enter, Next, ReadAll;
      ghost var from, standing := place, StandsAt(reader, place);
      if standing {
        Sees(reader, place);
      }
      if NextIs(reader, {4, 5}) {
        if standing {
          EnterSteps(reader, place);
          var item := place.level.items[place.level.at];
          place := Inside(place, item.items, item.OpenGroup?);
        }
        reader := Enter(reader);
        if reader.failed {
          ok := false;
          return;
        }
        SkipRest(from);
        return;
      }
      if standing {
        var item := place.level.items[place.level.at];
        if item.Scalar? {
          NextSteps(reader, place);
          place := Forward(place);
        } else if item.Tagged? {
          TagSteps(reader, place);
          place := Untagged(place);
        } else {
          StringSteps(reader, place);
          place := Forward(place);
        }
      }
      if NextIs(reader, {2, 3}) {
        reader := ReadAll(reader).1;
        return;
      }
      reader := Next(reader);
      ok := !reader.failed;
    }

    /** The rest of a container being skipped, and out of it. */
    method SkipRest(ghost from: Place)
      requires !reader.failed
      modifies this
      ensures |reader.rest| <= old(|reader.rest|)
      ensures old(StandsAt(reader, place)) && IsInside(old(place), from) ==> Stays(from, reader, place)
      decreases |reader.rest|, 1
    {
      hide Reaches, Settle, Enter, Next, ReadAll;
      ghost var inside, standing := place, StandsAt(reader, place);
      if standing {
        Sees(reader, place);
      }
      while HasNext(reader)
        invariant |reader.rest| <= old(|reader.rest|)
        invariant standing ==> Stays(inside, reader, place)
        decreases if reader.failed then 0 else |reader.rest| + 1
      {
        Skip();
      }
      if standing && !reader.failed {
        Sees(reader, place);
        if place.above != [] {
          LeaveSteps(reader, place);
          place := Outside(place);
        }
      }
      reader := Leave(reader);
      ok := !reader.failed;
    }

    method StringList() returns (values: seq<Utf8>)
      modifies this
      ensures Reads(old(Where()), Field(old(Where()), TextsOf), values, ok, Where(), 1)
      ensures Drains(old(|reader.rest|), ok, |reader.rest|) && (ok ==> old(ok))
    {
      hide StandsAt, Each, TextOf;
      values := [];
      ghost var from := Where();
      var entered := EnterArray();
      if !entered {
        return;
      }
      ghost var inside := if from.Some? then Where() else None;
      while ok && HasNext(reader)
        invariant ListRead(inside, TextOf, values, ok, Where())
        invariant |reader.rest| < old(|reader.rest|)
        decreases if ok then |reader.rest| + 1 else 0
      {
        ghost var before := Where();
        if before.Some? {
          Sees(reader, place);
        }
        var value := String();
        ListPushes(inside, TextOf, values, before, value, ok, Where());
        values := values + [value];
      }
      ghost var okInside, last := ok, Where();
      if last.Some? {
        Sees(reader, place);
      }
      LeaveArray();
      ListEnds(from, inside, TextOf, values, okInside, last, ok, Where());
    }

    method ByteList() returns (values: seq<Byte>)
      modifies this
      ensures Reads(old(Where()), Field(old(Where()), BytesOf), values, ok, Where(), 1)
      ensures Drains(old(|reader.rest|), ok, |reader.rest|) && (ok ==> old(ok))
    {
      hide StandsAt, Each, ByteOf;
      values := [];
      ghost var from := Where();
      var entered := EnterArray();
      if !entered {
        return;
      }
      ghost var inside := if from.Some? then Where() else None;
      while ok && HasNext(reader)
        invariant ListRead(inside, ByteOf, values, ok, Where())
        invariant |reader.rest| < old(|reader.rest|)
        decreases if ok then |reader.rest| + 1 else 0
      {
        ghost var before := Where();
        if before.Some? {
          Sees(reader, place);
        }
        var value := Number8();
        ListPushes(inside, ByteOf, values, before, value, ok, Where());
        values := values + [value];
      }
      ghost var okInside, last := ok, Where();
      if last.Some? {
        Sees(reader, place);
      }
      LeaveArray();
      ListEnds(from, inside, ByteOf, values, okInside, last, ok, Where());
    }

    method StringListList() returns (values: seq<seq<Utf8>>)
      modifies this
      ensures Reads(old(Where()), Field(old(Where()), TextListsOf), values, ok, Where(), 1)
      ensures Drains(old(|reader.rest|), ok, |reader.rest|) && (ok ==> old(ok))
    {
      hide StandsAt, Each, TextsOf;
      values := [];
      ghost var from := Where();
      var entered := EnterArray();
      if !entered {
        return;
      }
      ghost var inside := if from.Some? then Where() else None;
      while ok && HasNext(reader)
        invariant ListRead(inside, TextsOf, values, ok, Where())
        invariant |reader.rest| < old(|reader.rest|)
        decreases if ok then |reader.rest| + 1 else 0
      {
        ghost var before := Where();
        if before.Some? {
          Sees(reader, place);
        }
        var value := StringList();
        ListPushes(inside, TextsOf, values, before, value, ok, Where());
        values := values + [value];
      }
      ghost var okInside, last := ok, Where();
      if last.Some? {
        Sees(reader, place);
      }
      LeaveArray();
      ListEnds(from, inside, TextsOf, values, okInside, last, ok, Where());
    }

    method ReadSenseTags() returns (tags: SenseTags)
      modifies this
      ensures Reads(old(Where()), Field(old(Where()), TagsOf), tags, ok, Where(), 1)
      ensures Drains(old(|reader.rest|), ok, |reader.rest|) && (ok ==> old(ok))
    {
      hide StandsAt, Where, TextsOf, TextListsOf;
      tags := SenseTags([], []);
      var entered := EnterArray();
      if !entered {
        return;
      }
      var shared := StringList();
      var perSense := StringListList();
      LeaveArray();
      tags := SenseTags(shared, perSense);
    }

    /** The five fields of an image. */
    method ImageFields() returns (info: ImageInfo)
      modifies this
      ensures Reads(old(Where()), ImageThere(convert, old(Where())), info, ok, Where(), 5)
      ensures Drains(old(|reader.rest|), ok, |reader.rest|) && (ok ==> old(ok))
    {
      hide StandsAt, Where, TextOf, Int32Of, RealFrom;
      var path := String();
      var pixelWidth := Number32();
      var pixelHeight := Number32();
      var width := Real();
      var height := Real();
      info := ImageInfo(path, pixelWidth, pixelHeight, width, height);
    }

    method Image() returns (info: ImageInfo)
      modifies this
      ensures Reads(old(Where()), Field(old(Where()), ImageOf(convert)), info, ok, Where(), 1)
      ensures Drains(old(|reader.rest|), ok, |reader.rest|) && (ok ==> old(ok))
    {
      hide StandsAt, Where, ImageAt;
      info := ImageInfo([], 0, 0, 0, 0);
      var entered := EnterArray();
      if !entered {
        return;
      }
      info := ImageFields();
      LeaveArray();
    }

    method OptionalImage() returns (info: Option<ImageInfo>)
      modifies this
      ensures Reads(old(Where()), Field(old(Where()), (i: Item) => OptionalImageFrom(convert, i)), info, ok, Where(), 1)
      ensures Drains(old(|reader.rest|), ok, |reader.rest|) && (ok ==> old(ok))
    {
      hide StandsAt, ImageAt;
      if !ok {
        return None;
      }
      if Where().Some? {
        Sees(reader, place);
      }
      if Peek(reader) == Some(Head(7, InHead, 22)) {
        Pass();
        return None;
      }
      var image := Image();
      info := Some(image);
    }

    method ImageList() returns (values: seq<ImageInfo>)
      modifies this
      ensures Reads(old(Where()), Field(old(Where()), (i: Item) => ImagesOf(convert, i)), values, ok, Where(), 1)
      ensures Drains(old(|reader.rest|), ok, |reader.rest|) && (ok ==> old(ok))
    {
      hide StandsAt, Each, ImageFrom;
      values := [];
      ghost var from := Where();
      var entered := EnterArray();
      if !entered {
        return;
      }
      ghost var inside := if from.Some? then Where() else None;
      while ok && HasNext(reader)
        invariant ListRead(inside, ImageOf(convert), values, ok, Where())
        invariant |reader.rest| < old(|reader.rest|)
        decreases if ok then |reader.rest| + 1 else 0
      {
        ghost var before := Where();
        if before.Some? {
          Sees(reader, place);
        }
        var value := Image();
        ListPushes(inside, ImageOf(convert), values, before, value, ok, Where());
        values := values + [value];
      }
      ghost var okInside, last := ok, Where();
      if last.Some? {
        Sees(reader, place);
      }
      LeaveArray();
      ListEnds(from, inside, ImageOf(convert), values, okInside, last, ok, Where());
    }

    /** One element of a loanword list. entered tells whether it was an array at all. */
    method Loanword() returns (source: LoanwordSource, entered: bool)
      modifies this
      ensures Reads(old(Where()), Field(old(Where()), LoanwordOf), source, ok, Where(), 1)
      ensures Drains(old(|reader.rest|), ok, |reader.rest|) && (ok ==> old(ok))
      ensures !entered ==> !ok
    {
      hide StandsAt, Where, TextOf, BoolOf;
      source := LoanwordSource([], [], false, false);
      entered := EnterArray();
      if !entered {
        return;
      }
      var language := String();
      var originalWord := String();
      var isPart := Boolean();
      var isWasei := Boolean();
      LeaveArray();
      source := LoanwordSource(language, originalWord, isPart, isWasei);
    }

    method LoanwordSources() returns (values: seq<LoanwordSource>)
      modifies this
      ensures Reads(old(Where()), Field(old(Where()), LoanwordsOf), values, ok, Where(), 1)
      ensures Drains(old(|reader.rest|), ok, |reader.rest|) && (ok ==> old(ok))
    {
      hide StandsAt, Each, LoanwordOf;
      values := [];
      ghost var from := Where();
      var entered := EnterArray();
      if !entered {
        return;
      }
      ghost var inside := if from.Some? then Where() else None;
      while ok && HasNext(reader)
        invariant ListRead(inside, LoanwordOf, values, ok, Where())
        invariant |reader.rest| < old(|reader.rest|)
        decreases if ok then |reader.rest| + 1 else 0
      {
        ghost var before := Where();
        if before.Some? {
          Sees(reader, place);
        }
        var value, isArray := Loanword();
        ListPushes(inside, LoanwordOf, values, before, value, ok, Where());
        if !isArray {
          break;
        }
        values := values + [value];
      }
      ghost var okInside, last := ok, Where();
      if last.Some? {
        Sees(reader, place);
      }
      LeaveArray();
      ListEnds(from, inside, LoanwordOf, values, okInside, last, ok, Where());
    }

    /** One element of an example list. entered tells whether it was an array at all. */
    method Example() returns (example: KanjiExample, entered: bool)
      modifies this
      ensures Reads(old(Where()), Field(old(Where()), ExampleOf), example, ok, Where(), 1)
      ensures Drains(old(|reader.rest|), ok, |reader.rest|) && (ok ==> old(ok))
      ensures !entered ==> !ok
    {
      hide StandsAt, Where, TextOf;
      example := KanjiExample([], [], []);
      entered := EnterArray();
      if !entered {
        return;
      }
      var spelling := String();
      var reading := String();
      var gloss := String();
      LeaveArray();
      example := KanjiExample(spelling, reading, gloss);
    }

    method Examples() returns (values: seq<KanjiExample>)
      modifies this
      ensures Reads(old(Where()), Field(old(Where()), ExamplesOf), values, ok, Where(), 1)
      ensures Drains(old(|reader.rest|), ok, |reader.rest|) && (ok ==> old(ok))
    {
      hide StandsAt, Each, ExampleOf;
      values := [];
      ghost var from := Where();
      var entered := EnterArray();
      if !entered {
        return;
      }
      ghost var inside := if from.Some? then Where() else None;
      while ok && HasNext(reader)
        invariant ListRead(inside, ExampleOf, values, ok, Where())
        invariant |reader.rest| < old(|reader.rest|)
        decreases if ok then |reader.rest| + 1 else 0
      {
        ghost var before := Where();
        if before.Some? {
          Sees(reader, place);
        }
        var value, isArray := Example();
        ListPushes(inside, ExampleOf, values, before, value, ok, Where());
        if !isArray {
          break;
        }
        values := values + [value];
      }
      ghost var okInside, last := ok, Where();
      if last.Some? {
        Sees(reader, place);
      }
      LeaveArray();
      ListEnds(from, inside, ExampleOf, values, okInside, last, ok, Where());
    }
  }

  lemma AtDocument(payload: Bytes, document: Item, missing: Bytes)
    requires WellFormed(document) && payload + missing == ItemBytes(document)
    ensures Reached(Start(payload), Place(Level([document], 0, false), [], missing))
  {
    hide ItemBytes, ParseHead;
    var place := Place(Level([document], 0, false), [], missing);
    assert place.level.items[0..] == [document];
    assert BytesAll([document]) == ItemBytes(document) + BytesAll([document][1..]);
    SettleReaches(Reader(payload, Some(1), [], false), place);
  }

  // ---------------------------------------------------------------- records

  /** The fields of a JMdict record up to its definitions, over a record's. */
  ghost function JmdictFrontAt(record: JmdictRecord, items: seq<Item>, at: nat): Option<JmdictRecord> {
    if && at + 8 <= |items| && Int32Of(items[at]).Some? && TextOf(items[at + 1]).Some? &&
       TextsOf(items[at + 2]).Some? && TextsOf(items[at + 3]).Some? && TextListsOf(items[at + 4]).Some? &&
       TextsOf(items[at + 5]).Some? && TextListsOf(items[at + 6]).Some? && TextListsOf(items[at + 7]).Some?
    then Some(record.(entryId := Int32Of(items[at]).value, primarySpelling := TextOf(items[at + 1]).value,
                      primarySpellingOrthographyInfo := TextsOf(items[at + 2]).value,
                      alternativeSpellings := TextsOf(items[at + 3]).value,
                      alternativeSpellingsOrthographyInfo := TextListsOf(items[at + 4]).value,
                      readings := TextsOf(items[at + 5]).value,
                      readingsOrthographyInfo := TextListsOf(items[at + 6]).value,
                      definitions := TextListsOf(items[at + 7]).value))
    else None
  }

  ghost function JmdictFrontThere(record: JmdictRecord, place: Option<Place>): Option<JmdictRecord> {
    if place.Some? then JmdictFrontAt(record, place.value.level.items, place.value.level.at) else None
  }

  /** The four tag fields. */
  ghost function JmdictTagsAt(record: JmdictRecord, items: seq<Item>, at: nat): Option<JmdictRecord> {
    if && at + 4 <= |items| && TagsOf(items[at]).Some? && TagsOf(items[at + 1]).Some? &&
       TagsOf(items[at + 2]).Some? && TagsOf(items[at + 3]).Some?
    then Some(record.(wordClasses := TagsOf(items[at]).value, fields := TagsOf(items[at + 1]).value,
                      misc := TagsOf(items[at + 2]).value, dialects := TagsOf(items[at + 3]).value))
    else None
  }

  ghost function JmdictTagsThere(record: JmdictRecord, place: Option<Place>): Option<JmdictRecord> {
    if place.Some? then JmdictTagsAt(record, place.value.level.items, place.value.level.at) else None
  }

  /** The fields behind them. */
  ghost function JmdictBackAt(record: JmdictRecord, items: seq<Item>, at: nat): Option<JmdictRecord> {
    if && at + 7 <= |items| && TextListsOf(items[at]).Some? && TextListsOf(items[at + 1]).Some? &&
       TextsOf(items[at + 2]).Some? && TextListsOf(items[at + 3]).Some? && LoanwordsOf(items[at + 4]).Some? &&
       TextsOf(items[at + 5]).Some? && Int32Of(items[at + 6]).Some?
    then Some(record.(spellingRestrictions := TextListsOf(items[at]).value,
                      readingRestrictions := TextListsOf(items[at + 1]).value,
                      definitionInfo := TextsOf(items[at + 2]).value,
                      crossReferences := TextListsOf(items[at + 3]).value,
                      loanwordEtymology := LoanwordsOf(items[at + 4]).value,
                      info := TextsOf(items[at + 5]).value, priorityRank := Int32Of(items[at + 6]).value))
    else None
  }

  ghost function JmdictBackThere(record: JmdictRecord, place: Option<Place>): Option<JmdictRecord> {
    if place.Some? then JmdictBackAt(record, place.value.level.items, place.value.level.at) else None
  }

  const EMPTY_JMDICT := JmdictRecord(0, [], [], [], [], [], [], [], EMPTY_TAGS, EMPTY_TAGS, EMPTY_TAGS, EMPTY_TAGS,
                                     [], [], [], [], [], [], 0)
  const EMPTY_TAGS := SenseTags([], [])

  method DecodeJmdictFront(decoder: Decoder, record: JmdictRecord) returns (read: JmdictRecord)
    modifies decoder
    ensures Reads(old(decoder.Where()), JmdictFrontThere(record, old(decoder.Where())), read, decoder.ok,
                  decoder.Where(), 8)
    ensures decoder.ok ==> old(decoder.ok)
  {
    hide StandsAt, Drains, Decoder.Where, Int32Of, TextOf, TextsOf, TextListsOf;
    var entryId := decoder.Number32();
    var primarySpelling := decoder.String();
    var primarySpellingOrthographyInfo := decoder.StringList();
    var alternativeSpellings := decoder.StringList();
    var alternativeSpellingsOrthographyInfo := decoder.StringListList();
    var readings := decoder.StringList();
    var readingsOrthographyInfo := decoder.StringListList();
    var definitions := decoder.StringListList();
    read := record.(entryId := entryId, primarySpelling := primarySpelling,
                    primarySpellingOrthographyInfo := primarySpellingOrthographyInfo,
                    alternativeSpellings := alternativeSpellings,
                    alternativeSpellingsOrthographyInfo := alternativeSpellingsOrthographyInfo,
                    readings := readings, readingsOrthographyInfo := readingsOrthographyInfo,
                    definitions := definitions);
  }

  method DecodeJmdictTags(decoder: Decoder, record: JmdictRecord) returns (read: JmdictRecord)
    modifies decoder
    ensures Reads(old(decoder.Where()), JmdictTagsThere(record, old(decoder.Where())), read, decoder.ok,
                  decoder.Where(), 4)
    ensures decoder.ok ==> old(decoder.ok)
  {
    hide StandsAt, Drains, Decoder.Where, TagsOf;
    var wordClasses := decoder.ReadSenseTags();
    var fields := decoder.ReadSenseTags();
    var misc := decoder.ReadSenseTags();
    var dialects := decoder.ReadSenseTags();
    read := record.(wordClasses := wordClasses, fields := fields, misc := misc, dialects := dialects);
  }

  method DecodeJmdictBack(decoder: Decoder, record: JmdictRecord) returns (read: JmdictRecord)
    modifies decoder
    ensures Reads(old(decoder.Where()), JmdictBackThere(record, old(decoder.Where())), read, decoder.ok,
                  decoder.Where(), 7)
    ensures decoder.ok ==> old(decoder.ok)
  {
    hide StandsAt, Drains, Decoder.Where, Int32Of, TextsOf, TextListsOf, LoanwordsOf;
    var spellingRestrictions := decoder.StringListList();
    var readingRestrictions := decoder.StringListList();
    var definitionInfo := decoder.StringList();
    var crossReferences := decoder.StringListList();
    var loanwordEtymology := decoder.LoanwordSources();
    var info := decoder.StringList();
    var priorityRank := decoder.Number32();
    read := record.(spellingRestrictions := spellingRestrictions, readingRestrictions := readingRestrictions,
                    definitionInfo := definitionInfo, crossReferences := crossReferences,
                    loanwordEtymology := loanwordEtymology, info := info, priorityRank := priorityRank);
  }

  ghost function JmdictThere(place: Option<Place>): Option<JmdictRecord> {
    if place.Some? then JmdictAt(place.value.level.items, place.value.level.at) else None
  }

  /** The three parts of a JMdict record are the record. */
  lemma JmdictParts(items: seq<Item>, at: nat)
    ensures var front := JmdictFrontAt(EMPTY_JMDICT, items, at);
      var tags := if front.Some? then JmdictTagsAt(front.value, items, at + 8) else None;
      JmdictAt(items, at) == if tags.Some? then JmdictBackAt(tags.value, items, at + 12) else None
    ensures JmdictAt(items, at).Some? ==> JmdictFrontAt(EMPTY_JMDICT, items, at).Some?
  {
    hide Int32Of, TextOf, TextsOf, TextListsOf, TagsOf, LoanwordsOf;
  }

  method DecodeJmdict(decoder: Decoder) returns (record: JmdictRecord)
    modifies decoder
    ensures Reads(old(decoder.Where()), JmdictThere(old(decoder.Where())), record, decoder.ok, decoder.Where(), 19)
  {
    hide StandsAt, Drains, Decoder.Where, JmdictAt, JmdictFrontAt, JmdictTagsAt, JmdictBackAt;
    ghost var from := decoder.Where();
    if from.Some? {
      JmdictParts(from.value.level.items, from.value.level.at);
    }
    record := EMPTY_JMDICT;
    record := DecodeJmdictFront(decoder, record);
    record := DecodeJmdictTags(decoder, record);
    record := DecodeJmdictBack(decoder, record);
  }

  /** What a Jmnedict record's fields read at a place. */
  ghost function JmnedictThere(place: Option<Place>): Option<JmnedictRecord> {
    if place.Some? then JmnedictAt(place.value.level.items, place.value.level.at) else None
  }

  method DecodeJmnedict(decoder: Decoder) returns (record: JmnedictRecord)
    modifies decoder
    ensures Reads(old(decoder.Where()), JmnedictThere(old(decoder.Where())), record, decoder.ok, decoder.Where(), 6)
  {
    hide StandsAt, Drains, Decoder.Where, Int32Of, TextOf, TextsOf, TextListsOf;
    var entryId := decoder.Number32();
    var primarySpelling := decoder.String();
    var alternativeSpellings := decoder.StringList();
    var readings := decoder.StringList();
    var definitions := decoder.StringListList();
    var nameTypes := decoder.StringListList();
    record := JmnedictRecord(entryId, primarySpelling, alternativeSpellings, readings, definitions, nameTypes);
  }

  /** What a Kanjidic record's fields read at a place. */
  ghost function KanjidicThere(place: Option<Place>): Option<KanjidicRecord> {
    if place.Some? then KanjidicAt(place.value.level.items, place.value.level.at) else None
  }

  method DecodeKanjidic(decoder: Decoder) returns (record: KanjidicRecord)
    modifies decoder
    ensures Reads(old(decoder.Where()), KanjidicThere(old(decoder.Where())), record, decoder.ok, decoder.Where(), 8)
  {
    hide StandsAt, Drains, Decoder.Where, TextsOf, ByteOf, Int32Of;
    var definitions := decoder.StringList();
    var onReadings := decoder.StringList();
    var kunReadings := decoder.StringList();
    var nanoriReadings := decoder.StringList();
    var radicalNames := decoder.StringList();
    var strokeCount := decoder.Number8();
    var grade := decoder.Number8();
    var frequency := decoder.Number32();
    record := KanjidicRecord(definitions, onReadings, kunReadings, nanoriReadings, radicalNames, strokeCount, grade,
                             frequency);
  }

  /** What a YomitanTerm record's fields read at a place. */
  ghost function YomitanTermThere(convert: int -> Double, place: Option<Place>): Option<YomitanTermRecord> {
    if place.Some? then YomitanTermAt(convert, place.value.level.items, place.value.level.at) else None
  }

  /** The fields of a term up to its plain definitions, over a record's. */
  ghost function TermFrontThere(convert: int -> Double, record: YomitanTermRecord, place: Option<Place>)
    : Option<YomitanTermRecord>
  {
    if place.None? then None
    else
      var items, at := place.value.level.items, place.value.level.at;
      if && at + 5 <= |items| && TextOf(items[at]).Some? && TextOf(items[at + 1]).Some?
          && RealFrom(convert, items[at + 2]).Some?
         && TextsOf(items[at + 3]).Some? && TextsOf(items[at + 4]).Some?
      then Some(record.(primarySpelling := TextOf(items[at]).value, reading := TextOf(items[at + 1]).value,
                        popularityScore := RealFrom(convert, items[at + 2]).value,
                        definitions := TextsOf(items[at + 3]).value,
                        definitionsPlain := TextsOf(items[at + 4]).value))
      else None
  }

  /** The fields of a term behind them. */
  ghost function TermBackThere(convert: int -> Double, record: YomitanTermRecord, place: Option<Place>)
    : Option<YomitanTermRecord>
  {
    if place.None? then None
    else
      var items, at := place.value.level.items, place.value.level.at;
      if && at + 5 <= |items| && TextsOf(items[at]).Some? && TextsOf(items[at + 1]).Some?
          && TextsOf(items[at + 2]).Some?
         && ImagesOf(convert, items[at + 3]).Some? && Int32Of(items[at + 4]).Some?
      then Some(record.(wordClasses := TextsOf(items[at]).value, definitionTags := TextsOf(items[at + 1]).value,
                        termTags := TextsOf(items[at + 2]).value, images := ImagesOf(convert, items[at + 3]).value,
                        sequence := Int32Of(items[at + 4]).value))
      else None
  }

  method DecodeTermFront(decoder: Decoder, record: YomitanTermRecord) returns (read: YomitanTermRecord)
    modifies decoder
    ensures Reads(old(decoder.Where()), TermFrontThere(decoder.convert, record, old(decoder.Where())), read, decoder.ok,
                  decoder.Where(), 5)
    ensures decoder.ok ==> old(decoder.ok)
  {
    hide StandsAt, Drains, Decoder.Where, TextOf, RealFrom, TextsOf;
    var primarySpelling := decoder.String();
    var reading := decoder.String();
    var popularityScore := decoder.Real();
    var definitions := decoder.StringList();
    var definitionsPlain := decoder.StringList();
    read := record.(primarySpelling := primarySpelling, reading := reading, popularityScore := popularityScore,
                    definitions := definitions, definitionsPlain := definitionsPlain);
  }

  method DecodeTermBack(decoder: Decoder, record: YomitanTermRecord) returns (read: YomitanTermRecord)
    modifies decoder
    ensures Reads(old(decoder.Where()), TermBackThere(decoder.convert, record, old(decoder.Where())), read, decoder.ok,
                  decoder.Where(), 5)
    ensures decoder.ok ==> old(decoder.ok)
  {
    hide StandsAt, Drains, Decoder.Where, TextsOf, ImagesOf, Int32Of;
    var wordClasses := decoder.StringList();
    var definitionTags := decoder.StringList();
    var termTags := decoder.StringList();
    var images := decoder.ImageList();
    var sequence := decoder.Number32();
    read := record.(wordClasses := wordClasses, definitionTags := definitionTags, termTags := termTags,
                    images := images,
                    sequence := sequence);
  }

  method DecodeYomitanTerm(decoder: Decoder) returns (record: YomitanTermRecord)
    modifies decoder
    ensures Reads(old(decoder.Where()), YomitanTermThere(decoder.convert, old(decoder.Where())), record, decoder.ok,
                  decoder.Where(), 10)
  {
    hide StandsAt, Drains, Decoder.Where, TextOf, RealFrom, TextsOf, ImagesOf, Int32Of;
    record := YomitanTermRecord([], [], 0, [], [], [], [], [], [], 0);
    record := DecodeTermFront(decoder, record);
    record := DecodeTermBack(decoder, record);
  }

  /** What a YomitanKanji record's fields read at a place. */
  ghost function YomitanKanjiThere(place: Option<Place>): Option<YomitanKanjiRecord> {
    if place.Some? then YomitanKanjiAt(place.value.level.items, place.value.level.at) else None
  }

  method DecodeYomitanKanji(decoder: Decoder) returns (record: YomitanKanjiRecord)
    modifies decoder
    ensures Reads(old(decoder.Where()), YomitanKanjiThere(old(decoder.Where())), record, decoder.ok, decoder.Where(), 5)
  {
    hide StandsAt, Drains, Decoder.Where, TextsOf;
    var onReadings := decoder.StringList();
    var kunReadings := decoder.StringList();
    var tags := decoder.StringList();
    var definitions := decoder.StringList();
    var stats := decoder.StringList();
    record := YomitanKanjiRecord(onReadings, kunReadings, tags, definitions, stats);
  }

  /** What a PitchAccent record's fields read at a place. */
  ghost function PitchAccentThere(place: Option<Place>): Option<PitchAccentRecord> {
    if place.Some? then PitchAccentAt(place.value.level.items, place.value.level.at) else None
  }

  method DecodePitchAccent(decoder: Decoder) returns (record: PitchAccentRecord)
    modifies decoder
    ensures Reads(old(decoder.Where()), PitchAccentThere(old(decoder.Where())), record, decoder.ok, decoder.Where(), 3)
  {
    hide StandsAt, Drains, Decoder.Where, TextOf, BytesOf;
    var spelling := decoder.String();
    var reading := decoder.String();
    var positions := decoder.ByteList();
    record := PitchAccentRecord(spelling, reading, positions);
  }

  /** What a CustomWord record's fields read at a place. */
  ghost function CustomWordThere(place: Option<Place>): Option<CustomWordRecord> {
    if place.Some? then CustomWordAt(place.value.level.items, place.value.level.at) else None
  }

  method DecodeCustomWord(decoder: Decoder) returns (record: CustomWordRecord)
    modifies decoder
    ensures Reads(old(decoder.Where()), CustomWordThere(old(decoder.Where())), record, decoder.ok, decoder.Where(), 6)
  {
    hide StandsAt, Drains, Decoder.Where, TextOf, TextsOf, BoolOf;
    var primarySpelling := decoder.String();
    var alternativeSpellings := decoder.StringList();
    var readings := decoder.StringList();
    var definitions := decoder.StringList();
    var wordClasses := decoder.StringList();
    var hasUserDefinedWordClass := decoder.Boolean();
    record := CustomWordRecord(primarySpelling, alternativeSpellings, readings, definitions, wordClasses,
                               hasUserDefinedWordClass);
  }

  /** What a CustomName record's fields read at a place. */
  ghost function CustomNameThere(convert: int -> Double, place: Option<Place>): Option<CustomNameRecord> {
    if place.Some? then CustomNameAt(convert, place.value.level.items, place.value.level.at) else None
  }

  method DecodeCustomName(decoder: Decoder) returns (record: CustomNameRecord)
    modifies decoder
    ensures Reads(old(decoder.Where()), CustomNameThere(decoder.convert, old(decoder.Where())), record, decoder.ok,
                  decoder.Where(), 5)
  {
    hide StandsAt, Drains, Decoder.Where, TextOf, OptionalImageFrom;
    var primarySpelling := decoder.String();
    var reading := decoder.String();
    var nameType := decoder.String();
    var extraInfo := decoder.String();
    var image := decoder.OptionalImage();
    record := CustomNameRecord(primarySpelling, reading, nameType, extraInfo, image);
  }

  /** What a Frequency record's fields read at a place. */
  ghost function FrequencyThere(place: Option<Place>): Option<FrequencyRecord> {
    if place.Some? then FrequencyAt(place.value.level.items, place.value.level.at) else None
  }

  method DecodeFrequency(decoder: Decoder) returns (record: FrequencyRecord)
    modifies decoder
    ensures Reads(old(decoder.Where()), FrequencyThere(old(decoder.Where())), record, decoder.ok, decoder.Where(), 2)
  {
    hide StandsAt, Drains, Decoder.Where, TextOf, Int32Of;
    var spelling := decoder.String();
    var frequency := decoder.Number32();
    record := FrequencyRecord(spelling, frequency);
  }

  /** What a KanjiExamples record's fields read at a place. */
  ghost function KanjiExamplesThere(place: Option<Place>): Option<KanjiExamplesRecord> {
    if place.Some? then KanjiExamplesAt(place.value.level.items, place.value.level.at) else None
  }

  method DecodeKanjiExamples(decoder: Decoder) returns (record: KanjiExamplesRecord)
    modifies decoder
    ensures Reads(old(decoder.Where()), KanjiExamplesThere(old(decoder.Where())), record, decoder.ok, decoder.Where(),
                  2)
  {
    hide StandsAt, Drains, Decoder.Where, TextOf, ExamplesOf;
    var kanji := decoder.String();
    var examples := decoder.Examples();
    record := KanjiExamplesRecord(kanji, examples);
  }

  /** What a KanjiComponents record's fields read at a place. */
  ghost function KanjiComponentsThere(place: Option<Place>): Option<KanjiComponentsRecord> {
    if place.Some? then KanjiComponentsAt(place.value.level.items, place.value.level.at) else None
  }

  method DecodeKanjiComponents(decoder: Decoder) returns (record: KanjiComponentsRecord)
    modifies decoder
    ensures Reads(old(decoder.Where()), KanjiComponentsThere(old(decoder.Where())), record, decoder.ok,
                  decoder.Where(), 2)
  {
    hide StandsAt, Drains, Decoder.Where, TextOf, TextsOf;
    var kanji := decoder.String();
    var components := decoder.StringList();
    record := KanjiComponentsRecord(kanji, components);
  }

  // ---------------------------------------------------------------- payloads

  datatype PayloadHeader = PayloadHeader(ok: bool, version: Int32, kind: int)

  /** Where a decoder stands behind the header of a payload. */
  function BehindHeader(document: Item, missing: Bytes): Place
    requires IsArray(document)
  {
    Place(Level(document.items, 2, document.OpenGroup?), [Level([document], 1, false)], missing)
  }

  /** readHeader(): the version and the kind. */
  method ReadHeader(decoder: Decoder, ghost document: Item, ghost missing: Bytes) returns (header: PayloadHeader)
    modifies decoder
    ensures header.ok ==> decoder.ok && !old(decoder.reader.failed) && 0 <= header.kind <= LAST_KIND
    ensures old(decoder.Where()) == Some(Place(Level([document], 0, false), [], missing)) ==>
      && (header.ok && header.version == CODEC_VERSION ==> HeaderOf(document) == Some(header.kind))
      && (header.ok ==> IsArray(document) && decoder.Where() == Some(BehindHeader(document, missing)))
      && (missing == [] && HeaderOf(document).Some? ==> header.ok && header.version == CODEC_VERSION)
  {
    hide StandsAt, Drains, Decoder.Where, IntOf, ToInt32;
    header := PayloadHeader(false, 0, 0);
    var entered := decoder.EnterArray();
    if !entered {
      return;
    }
    var version := decoder.Number();
    var kind := decoder.Number();
    if !decoder.ok || decoder.reader.failed {
      HeaderFails(decoder);
      return;
    }
    if kind < 0 || kind > LAST_KIND {
      return;
    }
    header := PayloadHeader(true, ToInt32(version), kind);
    assert [Level([document], 1, false)] + [] == [Level([document], 1, false)];
  }

  lemma WhereStands(decoder: Decoder)
    ensures decoder.Where().Some? ==> StandsAt(decoder.reader, decoder.Where().value)
  {
  }

  lemma HeaderFails(decoder: Decoder)
    ensures decoder.Where().Some? ==> decoder.ok && !decoder.reader.failed
  {
    if decoder.Where().Some? {
      Sees(decoder.reader, decoder.place);
    }
  }

  /** The number of fields of a kind. */
  function FieldCount(kind: int): nat {
    match kind
    case 0 => 19
    case 1 => 6
    case 2 => 8
    case 3 => 10
    case 4 => 5
    case 5 => 3
    case 6 => 6
    case 7 => 5
    case 8 => 2
    case 9 => 2
    case 10 => 2
    case _ => 0
  }

  /** A document as the encoder lays it out: of indefinite length and with nothing behind its fields. */
  predicate Exact(document: Item) {
    document.OpenGroup? && HeaderOf(document).Some? && |document.items| == 2 + FieldCount(HeaderOf(document).value)
  }

  /** The fields of a payload, by its kind. */
  method DecodeData(decoder: Decoder, kind: int) returns (data: RecordData)
    requires 0 <= kind <= LAST_KIND
    modifies decoder
    ensures Reads(old(decoder.Where()), DataThere(decoder.convert, kind, old(decoder.Where())), data, decoder.ok,
                  decoder.Where(), FieldCount(kind))
  {
    hide StandsAt, Decoder.Where, JmdictAt, JmnedictAt, KanjidicAt, YomitanTermAt, YomitanKanjiAt, PitchAccentAt,
         CustomWordAt, CustomNameAt, FrequencyAt, KanjiExamplesAt, KanjiComponentsAt;
    match kind {
      case 0 => { var record := DecodeJmdict(decoder); data := Jmdict(record); }
      case 1 => { var record := DecodeJmnedict(decoder); data := Jmnedict(record); }
      case 2 => { var record := DecodeKanjidic(decoder); data := Kanjidic(record); }
      case 3 => { var record := DecodeYomitanTerm(decoder); data := YomitanTerm(record); }
      case 4 => { var record := DecodeYomitanKanji(decoder); data := YomitanKanji(record); }
      case 5 => { var record := DecodePitchAccent(decoder); data := PitchAccent(record); }
      case 6 => { var record := DecodeCustomWord(decoder); data := CustomWord(record); }
      case 7 => { var record := DecodeCustomName(decoder); data := CustomName(record); }
      case 8 => { var record := DecodeFrequency(decoder); data := Frequency(record); }
      case 9 => { var record := DecodeKanjiExamples(decoder); data := KanjiExamples(record); }
      case _ => { var record := DecodeKanjiComponents(decoder); data := KanjiComponents(record); }
    }
  }

  ghost function DataThere(convert: int -> Double, kind: int, place: Option<Place>): Option<RecordData> {
    if place.Some? then DataAt(convert, kind, place.value.level.items, place.value.level.at) else None
  }

  /** A reader that stands at the break of the outer array has the whole document. */
  lemma NothingMissing(r: Reader, place: Place, document: Item)
    requires StandsAt(r, place) && place.level.at == |place.level.items| && place.level.breaks
    requires place.above == [Level([document], 1, false)]
    ensures place.missing == []
  {
    hide ParseHead, ItemBytes;
    NonEmptyHead(r.rest);
    BreakAhead(place);
    var outer := place.above[0];
    assert outer.items[1..] == [] && place.above[1..] == [];
    assert AboveBytes(place.above) == Remaining(outer) + AboveBytes([]);
    assert |PlaceBytes(place)| == 1 && |r.rest| >= 1;
  }

  /** decodeRecord(): from the bytes of a document, the record the document decodes to, with id 0; None
      when it decodes to none. When the last bytes are missing: nothing, unless it is the same record
      and only bytes behind its fields are missing. */
  method DecodeRecord<D>(convert: int -> Double, dictType: D, payload: Bytes, ghost document: Item,
                         ghost missing: Bytes)
    returns (record: Option<Record<D>>)
    ensures WellFormed(document) && payload + missing == ItemBytes(document) ==>
      && (record.Some? ==>
            Decoded(convert, document).Some? && record.value == Record(0, dictType, Decoded(convert, document).value))
      && (missing == [] && Decoded(convert, document).Some? ==> record.Some?)
      && (missing != [] && Exact(document) ==> record.None?)
  {
    hide StandsAt, Decoder.Where, DataAt, ItemBytes, WellFormed;
    var decoder := new Decoder(convert, payload, document, missing);
    var header := ReadHeader(decoder, document, missing);
    if !header.ok {
      return None;
    }
    if header.version != CODEC_VERSION {
      return None;
    }
    var data := DecodeData(decoder, header.kind);
    if !decoder.ok || decoder.reader.failed {
      HeaderFails(decoder);
      return None;
    }
    ghost var at := decoder.Where();
    if WellFormed(document) && payload + missing == ItemBytes(document) && Exact(document) {
      assert at == Some(Ahead(BehindHeader(document, missing), FieldCount(header.kind)));
      WhereStands(decoder);
      NothingMissing(decoder.reader, at.value, document);
    }
    record := Some(Record(0, dictType, data));
  }
}
