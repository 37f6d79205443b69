/** The streaming reader over a CBOR byte string, and what it does on the bytes of well-formed items, all
    of them or cut short. */
module CborReader {
  import opened Basics
  import opened Cbor

  /** The unread bytes, the items left in the current container (None in one of indefinite length) and
      in those around it, and whether an error was met. The outermost level holds the one top item. */
  datatype Reader = Reader(rest: Bytes, left: Option<nat>, outer: seq<Option<nat>>, failed: bool)

  predicate AtEnd(r: Reader) {
    r.left == Some(0) || (r.left.None? && r.rest != [] && r.rest[0] == BREAK)
  }

  predicate HasNext(r: Reader) {
    !r.failed && !AtEnd(r)
  }

  /** The next head is parsed ahead; bytes that hold none are an error. */
  function Settle(r: Reader): Reader {
    if AtEnd(r) then r
    else if ParseHead(r.rest).Some? && ParseHead(r.rest).value != OpenHead(7) then r
    else r.(failed := true)
  }

  function Start(payload: Bytes): Reader {
    Settle(Reader(payload, Some(1), [], false))
  }

  /** The head of the next item, when there is one. */
  function Peek(r: Reader): (head: Option<Head>)
    ensures head.Some? ==> HeadSize(head.value) <= |r.rest|
  {
    if HasNext(r) then ParseHead(r.rest) else None
  }

  predicate NextIs(r: Reader, majors: set<nat>) {
    Peek(r).Some? && Peek(r).value.major in majors
  }

  function Fail(r: Reader): Reader {
    r.(failed := true)
  }

  function Counted(left: Option<nat>): Option<nat> {
    if left.Some? && left.value > 0 then Some(left.value - 1) else left
  }

  /** Past a head that has no bytes behind it. A tag is not an item of its own. */
  function Next(r: Reader): (after: Reader)
    ensures |after.rest| <= |r.rest| && (!after.failed ==> |after.rest| < |r.rest|)
  {
    if Peek(r).None? || Peek(r).value.major in {2, 3, 4, 5} then Fail(r)
    else
      var head := Peek(r).value;
      Settle(r.(rest := r.rest[HeadSize(head)..], left := if head.major == 6 then r.left else Counted(r.left)))
  }

  function Enter(r: Reader): (after: Reader)
    ensures |after.rest| <= |r.rest| && (!after.failed ==> |after.rest| < |r.rest|)
  {
    if !NextIs(r, {4, 5}) then Fail(r)
    else
      var head := Peek(r).value;
      var count := if head.OpenHead? then None else Some(if head.major == 5 then 2 * head.value else head.value);
      Settle(Reader(r.rest[HeadSize(head)..], count, [Counted(r.left)] + r.outer, false))
  }

  function Leave(r: Reader): (after: Reader)
    ensures |after.rest| <= |r.rest|
  {
    if r.failed || !AtEnd(r) || r.outer == [] then Fail(r)
    else
      var rest := if r.left.None? then r.rest[1..] else r.rest;
      Settle(Reader(rest, r.outer[0], r.outer[1..], false))
  }

  /** The chunks of a string up to the break, and the bytes they take with it. */
  function ReadChunks(bytes: Bytes, major: Major): (read: Option<(Bytes, nat)>)
    ensures read.Some? ==> read.value.1 <= |bytes|
  {
    if bytes == [] then None
    else if bytes[0] == BREAK then Some(([], 1))
    else
      var head := ParseHead(bytes);
      if head.None? || !head.value.Head? || head.value.major != major then None
      else
        var end := HeadSize(head.value) + head.value.value;
        if end > |bytes| then None
        else
          var more := ReadChunks(bytes[end..], major);
          if more.None? then None
          else Some((bytes[HeadSize(head.value)..end] + more.value.0, end + more.value.1))
  }

  /** A whole string of either form: its content and the bytes it takes. */
  function ReadString(bytes: Bytes): (read: Option<(Bytes, nat)>)
    ensures read.Some? ==> 0 < read.value.1 <= |bytes|
  {
    var head := ParseHead(bytes);
    if head.None? || head.value.major !in {2, 3} then None
    else if head.value.OpenHead? then
      var more := ReadChunks(bytes[1..], head.value.major);
      if more.None? then None else Some((more.value.0, 1 + more.value.1))
    else
      var end := HeadSize(head.value) + head.value.value;
      if end > |bytes| then None else Some((bytes[HeadSize(head.value)..end], end))
  }

  function ReadAll(r: Reader): (read: (Bytes, Reader))
    ensures |read.1.rest| <= |r.rest| && (!read.1.failed ==> |read.1.rest| < |r.rest|)
  {
    if !HasNext(r) || ReadString(r.rest).None? then ([], Fail(r))
    else
      var read := ReadString(r.rest).value;
      (read.0, Settle(r.(rest := r.rest[read.1..], left := Counted(r.left))))
  }

  // ---------------------------------------------------------------- where a reader stands

  /** A container being read: its items, how many are behind, and whether a break ends it. */
  datatype Level = Level(items: seq<Item>, at: nat, breaks: bool)

  /** Where a reader stands in a document: in level, inside the levels above, with the last bytes of
      the document missing. */
  datatype Place = Place(level: Level, above: seq<Level>, missing: Bytes)

  ghost predicate LevelOk(level: Level) {
    level.at <= |level.items| && AllWellFormed(level.items)
  }

  ghost function Remaining(level: Level): Bytes
    requires level.at <= |level.items|
  {
    BytesAll(level.items[level.at..]) + if level.breaks then [BREAK] else []
  }

  ghost function AboveBytes(above: seq<Level>): Bytes
    requires forall i :: 0 <= i < |above| ==> above[i].at <= |above[i].items|
  {
    if above == [] then [] else Remaining(above[0]) + AboveBytes(above[1..])
  }

  function LeftIn(level: Level): Option<nat>
    requires level.at <= |level.items|
  {
    if level.breaks then None else Some(|level.items| - level.at)
  }

  ghost predicate PlaceOk(place: Place) {
    LevelOk(place.level) && forall i :: 0 <= i < |place.above| ==> LevelOk(place.above[i])
  }

  ghost function PlaceBytes(place: Place): Bytes
    requires PlaceOk(place)
  {
    Remaining(place.level) + AboveBytes(place.above)
  }

  /** The reader stands at place, its next head not yet parsed. */
  ghost predicate Reaches(r: Reader, place: Place) {
    && PlaceOk(place)
    && !r.failed
    && r.left == LeftIn(place.level)
    && |r.outer| == |place.above|
    && (forall i :: 0 <= i < |place.above| ==> r.outer[i] == LeftIn(place.above[i]))
    && r.rest + place.missing == PlaceBytes(place)
  }

  ghost predicate StandsAt(r: Reader, place: Place) {
    Reaches(r, place) && Settle(r) == r
  }

  /** What a step that should reach place does: it reaches it or fails, and does not fail on a whole
      document. */
  ghost predicate Reached(after: Reader, place: Place) {
    && (!after.failed ==> StandsAt(after, place))
    && (place.missing == [] ==> !after.failed)
  }

  function Forward(place: Place): Place {
    place.(level := place.level.(at := place.level.at + 1))
  }

  function Inside(place: Place, items: seq<Item>, breaks: bool): Place {
    Place(Level(items, 0, breaks), [Forward(place).level] + place.above, place.missing)
  }

  function Outside(place: Place): Place
    requires place.above != []
  {
    Place(place.above[0], place.above[1..], place.missing)
  }

  lemma BytesAhead(place: Place)
    requires PlaceOk(place) && place.level.at < |place.level.items|
    ensures var item := place.level.items[place.level.at];
      PlaceBytes(place) == ItemBytes(item) + PlaceBytes(Forward(place))
  {
    hide ItemBytes;
    var ahead := place.level.items[place.level.at..];
    assert ahead[1..] == place.level.items[place.level.at + 1..];
    assert AllWellFormed(place.level.items);
  }

  lemma SettleReaches(r: Reader, place: Place)
    requires Reaches(r, place)
    ensures Reached(Settle(r), place)
    ensures !Settle(r).failed ==> (HasNext(Settle(r)) <==> place.level.at < |place.level.items|)
    ensures !Settle(r).failed && place.level.at < |place.level.items| ==>
      Peek(Settle(r)) == Some(FirstHead(place.level.items[place.level.at]))
  {
    hide ParseHead;
    hide PlaceBytes;
    hide AboveBytes;
    assert place.missing == [] ==> r.rest + place.missing == r.rest;
    if place.level.at < |place.level.items| {
      var item := place.level.items[place.level.at];
      BytesAhead(place);
      ItemStarts(item, PlaceBytes(Forward(place)));
      if r.rest != [] {
        assert r.rest[0] == (r.rest + place.missing)[0] == ItemBytes(item)[0];
      }
      NonEmptyHead(r.rest);
      if ParseHead(r.rest).Some? {
        HeadIsSelfDelimiting(r.rest, place.missing);
      }
    } else if place.level.breaks {
      BreakAhead(place);
      if r.rest != [] {
        assert r.rest[0] == (r.rest + place.missing)[0];
      } else {
        NonEmptyHead(r.rest);
      }
    }
  }

  lemma NonEmptyHead(bytes: Bytes)
    ensures ParseHead(bytes).Some? ==> bytes != []
    ensures bytes != [] && bytes[0] == BREAK ==> ParseHead(bytes) == Some(OpenHead(7))
  {
  }

  lemma BreakAhead(place: Place)
    requires PlaceOk(place) && place.level.at == |place.level.items| && place.level.breaks
    ensures PlaceBytes(place) != [] && PlaceBytes(place)[0] == BREAK
    ensures PlaceBytes(place)[1..] == AboveBytes(place.above)
  {
    assert place.level.items[place.level.at..] == [];
    assert Remaining(place.level) == [BREAK];
  }

  /** What a reader standing at an item sees of it, and what is behind its head. */
  lemma AtItem(r: Reader, place: Place)
    requires StandsAt(r, place) && place.level.at < |place.level.items|
    ensures var item := place.level.items[place.level.at];
      && HasNext(r) && Peek(r) == Some(FirstHead(item)) && WellFormed(item)
      && r.rest[HeadSize(FirstHead(item))..] + place.missing == Body(item) + PlaceBytes(Forward(place))
  {
    hide PlaceBytes;
    hide ItemBytes;
    hide ParseHead;
    hide Body;
    SettleReaches(r, place);
    var item := place.level.items[place.level.at];
    assert WellFormed(item) by {
      assert AllWellFormed(place.level.items);
    }
    BytesAhead(place);
    ItemStarts(item, PlaceBytes(Forward(place)));
    var size := HeadSize(FirstHead(item));
    assert r.rest[size..] + place.missing == (r.rest + place.missing)[size..];
    assert (ItemBytes(item) + PlaceBytes(Forward(place)))[size..]
      == ItemBytes(item)[size..] + PlaceBytes(Forward(place));
  }

  lemma AtNothing(r: Reader, place: Place)
    requires StandsAt(r, place) && place.level.at == |place.level.items|
    ensures !HasNext(r) && Peek(r) == None
  {
    hide PlaceBytes;
    SettleReaches(r, place);
  }

  lemma NextSteps(r: Reader, place: Place)
    requires StandsAt(r, place) && place.level.at < |place.level.items| && place.level.items[place.level.at].Scalar?
    ensures Reached(Next(r), Forward(place))
  {
    hide ParseHead;
    hide PlaceBytes;
    hide ItemBytes;
    AtItem(r, place);
    var item := place.level.items[place.level.at];
    assert Body(item) == [];
    assert [] + PlaceBytes(Forward(place)) == PlaceBytes(Forward(place));
    SettleReaches(r.(rest := r.rest[HeadSize(FirstHead(item))..], left := Counted(r.left)), Forward(place));
  }

  /** Where the reader stands behind a tag: at the item it tags. */
  function Untagged(place: Place): Place
    requires place.level.at < |place.level.items| && place.level.items[place.level.at].Tagged?
  {
    var items := place.level.items;
    place.(level := place.level.(items := items[place.level.at := items[place.level.at].item]))
  }

  lemma SameAhead(place: Place)
    requires PlaceOk(place) && PlaceOk(Forward(place))
    requires place.level.at < |place.level.items| && place.level.items[place.level.at].Tagged?
    ensures PlaceOk(Untagged(place)) && PlaceBytes(Forward(Untagged(place))) == PlaceBytes(Forward(place))
  {
    var after := Untagged(place);
    assert WellFormed(place.level.items[place.level.at]);
    assert after.level.items[after.level.at + 1..] == place.level.items[place.level.at + 1..];
  }

  lemma TagSteps(r: Reader, place: Place)
    requires StandsAt(r, place) && place.level.at < |place.level.items| && place.level.items[place.level.at].Tagged?
    ensures Reached(Next(r), Untagged(place))
  {
    hide ParseHead;
    hide ItemBytes;
    hide PlaceBytes;
    AtItem(r, place);
    var item, after := place.level.items[place.level.at], Untagged(place);
    BytesAhead(after);
    SameAhead(place);
    SettleReaches(r.(rest := r.rest[HeadSize(FirstHead(item))..]), after);
  }

  lemma EnterSteps(r: Reader, place: Place)
    requires StandsAt(r, place) && place.level.at < |place.level.items|
    requires var item := place.level.items[place.level.at]; item.Group? || item.OpenGroup?
    ensures var item := place.level.items[place.level.at];
      Reached(Enter(r), Inside(place, item.items, item.OpenGroup?))
  {
    hide ParseHead;
    hide ItemBytes;
    hide PlaceBytes;
    AtItem(r, place);
    var item := place.level.items[place.level.at];
    var inside := Inside(place, item.items, item.OpenGroup?);
    InsideBytes(place, item.items, item.OpenGroup?);
    var head := FirstHead(item);
    var count := if head.OpenHead? then None else Some(if head.major == 5 then 2 * head.value else head.value);
    SettleReaches(Reader(r.rest[HeadSize(head)..], count, [Counted(r.left)] + r.outer, false), inside);
  }

  lemma InsideBytes(place: Place, items: seq<Item>, breaks: bool)
    requires PlaceOk(Forward(place)) && AllWellFormed(items)
    ensures PlaceOk(Inside(place, items, breaks))
    ensures PlaceBytes(Inside(place, items, breaks)) ==
      (BytesAll(items) + if breaks then [BREAK] else []) + PlaceBytes(Forward(place))
  {
    var inside := Inside(place, items, breaks);
    assert items[0..] == items;
    assert inside.above[1..] == place.above;
  }

  lemma LeaveSteps(r: Reader, place: Place)
    requires StandsAt(r, place) && place.level.at == |place.level.items| && place.above != []
    ensures Reached(Leave(r), Outside(place))
  {
    hide ParseHead;
    hide ItemBytes;
    AtNothing(r, place);
    var rest := if r.left.None? then r.rest[1..] else r.rest;
    assert PlaceBytes(Outside(place)) == AboveBytes(place.above);
    if place.level.breaks {
      BreakAhead(place);
      assert rest + place.missing == (r.rest + place.missing)[1..];
    } else {
      assert place.level.items[place.level.at..] == [];
    }
    SettleReaches(Reader(rest, r.outer[0], r.outer[1..], false), Outside(place));
  }

  // ---------------------------------------------------------------- strings

  /** The content of a string item of either form. */
  function StringContent(item: Item): Option<Bytes> {
    if item.Chars? then Some(item.content)
    else if item.OpenChars? then Some(ChunkContent(item.chunks))
    else None
  }

  lemma {:induction false} ChunksAreSelfDelimiting(bytes: Bytes, major: Major, more: Bytes)
    requires ReadChunks(bytes, major).Some?
    ensures ReadChunks(bytes + more, major) == ReadChunks(bytes, major)
    decreases |bytes|
  {
    hide ParseHead;
    hide ReadChunks;
    ChunksBegin(bytes, major);
    assert (bytes + more)[0] == bytes[0];
    if bytes[0] == BREAK {
      BreakReads(bytes, major);
      BreakReads(bytes + more, major);
    } else {
      HeadIsSelfDelimiting(bytes, more);
      var head := ParseHead(bytes).value;
      var end := HeadSize(head) + head.value;
      assert (bytes + more)[HeadSize(head)..end] == bytes[HeadSize(head)..end];
      assert (bytes + more)[end..] == bytes[end..] + more;
      ChunksAreSelfDelimiting(bytes[end..], major, more);
      FirstChunk(bytes, head);
      FirstChunk(bytes + more, head);
    }
  }

  lemma ChunksBegin(bytes: Bytes, major: Major)
    requires ReadChunks(bytes, major).Some?
    ensures bytes != []
    ensures bytes[0] != BREAK ==>
      && ParseHead(bytes).Some? && ParseHead(bytes).value.Head? && ParseHead(bytes).value.major == major
      && HeadSize(ParseHead(bytes).value) + ParseHead(bytes).value.value <= |bytes|
      && ReadChunks(bytes[HeadSize(ParseHead(bytes).value) + ParseHead(bytes).value.value..], major).Some?
  {
    hide ParseHead;
  }

  lemma StringIsSelfDelimiting(bytes: Bytes, more: Bytes)
    requires ReadString(bytes).Some?
    ensures ReadString(bytes + more) == ReadString(bytes)
  {
    hide ParseHead;
    hide ReadChunks;
    HeadIsSelfDelimiting(bytes, more);
    var head := ParseHead(bytes).value;
    if head.OpenHead? {
      assert (bytes + more)[1..] == bytes[1..] + more;
      ChunksAreSelfDelimiting(bytes[1..], head.major, more);
    } else {
      var end := HeadSize(head) + head.value;
      assert (bytes + more)[HeadSize(head)..end] == bytes[HeadSize(head)..end];
    }
  }

  lemma {:induction false} ChunksRead(major: Major, chunks: seq<Item>, tail: Bytes)
    requires major in {2, 3} && AllWellFormed(chunks)
    requires forall i :: 0 <= i < |chunks| ==> chunks[i].Chars? && chunks[i].major == major
    ensures ReadChunks(BytesAll(chunks) + ([BREAK] + tail), major)
      == Some((ChunkContent(chunks), |BytesAll(chunks)| + 1))
    decreases |chunks|
  {
    hide ParseHead;
    hide HeadBytes;
    hide ItemBytes;
    hide ReadChunks;
    var bytes, end := BytesAll(chunks) + ([BREAK] + tail), [BREAK] + tail;
    if chunks == [] {
      assert bytes == end;
      BreakReads(end, major);
    } else {
      ChunkReads(chunks[0], BytesAll(chunks[1..]) + end);
      assert bytes == ItemBytes(chunks[0]) + (BytesAll(chunks[1..]) + end);
      ChunksRead(major, chunks[1..], tail);
      FirstChunk(bytes, ParseHead(bytes).value);
    }
  }

  lemma BreakReads(bytes: Bytes, major: Major)
    requires bytes != [] && bytes[0] == BREAK
    ensures ReadChunks(bytes, major) == Some(([], 1))
  {
  }

  lemma FirstChunk(bytes: Bytes, head: Head)
    requires bytes != [] && bytes[0] != BREAK && ParseHead(bytes) == Some(head) && head.Head?
    requires HeadSize(head) + head.value <= |bytes|
      && ReadChunks(bytes[HeadSize(head) + head.value..], head.major).Some?
    ensures var more := ReadChunks(bytes[HeadSize(head) + head.value..], head.major).value;
      ReadChunks(bytes, head.major) ==
        Some((bytes[HeadSize(head)..HeadSize(head) + head.value] + more.0, HeadSize(head) + head.value + more.1))
  {
    hide ParseHead;
  }

  lemma ChunkReads(item: Item, tail: Bytes)
    requires WellFormed(item) && item.Chars?
    ensures var bytes := ItemBytes(item) + tail;
      && ParseHead(bytes) == Some(Head(item.major, item.width, |item.content|)) && bytes != [] && bytes[0] != BREAK
      && HeadSize(FirstHead(item)) + |item.content| == |ItemBytes(item)|
      && bytes[HeadSize(FirstHead(item))..|ItemBytes(item)|] == item.content && bytes[|ItemBytes(item)|..] == tail
  {
    hide ParseHead;
    hide HeadBytes;
    ItemStarts(item, tail);
    assert ItemBytes(item)[HeadSize(FirstHead(item))..] == item.content;
  }

  lemma StringReads(item: Item, tail: Bytes)
    requires WellFormed(item) && StringContent(item).Some?
    ensures ReadString(ItemBytes(item) + tail) == Some((StringContent(item).value, |ItemBytes(item)|))
  {
    hide ParseHead;
    hide HeadBytes;
    hide ReadChunks;
    if item.Chars? {
      ChunkReads(item, tail);
    } else {
      ItemStarts(item, tail);
      ChunksRead(item.major, item.chunks, tail);
      assert (ItemBytes(item) + tail)[1..] == BytesAll(item.chunks) + ([BREAK] + tail);
    }
  }

  lemma StringSteps(r: Reader, place: Place)
    requires StandsAt(r, place) && place.level.at < |place.level.items|
    requires StringContent(place.level.items[place.level.at]).Some?
    ensures Reached(ReadAll(r).1, Forward(place))
    ensures !ReadAll(r).1.failed ==> ReadAll(r).0 == StringContent(place.level.items[place.level.at]).value
  {
    hide ReadString;
    hide PlaceBytes;
    hide ItemBytes;
    hide ParseHead;
    AtItem(r, place);
    BytesAhead(place);
    var item := place.level.items[place.level.at];
    StringReads(item, PlaceBytes(Forward(place)));
    if ReadString(r.rest).Some? {
      StringIsSelfDelimiting(r.rest, place.missing);
      var size := |ItemBytes(item)|;
      assert r.rest[size..] + place.missing == (r.rest + place.missing)[size..] == PlaceBytes(Forward(place));
      SettleReaches(r.(rest := r.rest[size..], left := Counted(r.left)), Forward(place));
    } else {
      assert r.rest + [] == r.rest;
    }
  }
}
