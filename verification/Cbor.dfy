// Skipping one CBOR item (section 3 of RFC 8949), the way the SDK finds the end of the
// credential public key inside registration authenticator data.
module Cbor {
  import opened Basics
  import opened Endian

  const MAX_SAFE_INTEGER: nat := 0x1f_ffff_ffff_ffff

  /** How the argument of an item is written: inside the initial byte, or in 1, 2, 4, 8 bytes. */
  datatype Width = Direct | One | Two | Four | Eight

  /** Definite-length items; the entries of a map alternate keys and values. */
  datatype Item =
    | Number(negative: bool, width: Width, value: nat)
    | Chunk(text: bool, width: Width, data: bytes)
    | Array(width: Width, items: Items)
    | Entries(width: Width, entries: Items)
    | Tagged(width: Width, tag: nat, item: Item)
    | Simple(width: Width, value: nat)

  datatype Items = Nil | Cons(head: Item, tail: Items)

  function Count(items: Items): nat {
    if items.Nil? then 0 else 1 + Count(items.tail)
  }

  // ----- the encoder, in every argument width

  function Size(w: Width): nat {
    match w
    case Direct => 0
    case One => 1
    case Two => 2
    case Four => 4
    case Eight => 8
  }

  function Info(w: Width): byte {
    match w
    case Direct => 0
    case One => 24
    case Two => 25
    case Four => 26
    case Eight => 27
  }

  predicate Fits(w: Width, v: nat) {
    if w.Direct? then v < 24 else v < Pow256(Size(w))
  }

  function ItemHead(major: nat, w: Width, v: nat): (r: bytes)
    requires major < 8 && Fits(w, v)
    ensures |r| == 1 + Size(w)
  {
    if w.Direct? then [major * 32 + v] else [major * 32 + Info(w)] + BE(v, Size(w))
  }

  predicate Argument(w: Width, v: nat) {
    Fits(w, v) && v <= 0x1f_ffff_ffff_ffff
  }

  function Major(item: Item): nat {
    match item
    case Number(negative, _, _) => if negative then 1 else 0
    case Chunk(text, _, _) => if text then 3 else 2
    case Array(_, _) => 4
    case Entries(_, _) => 5
    case Tagged(_, _, _) => 6
    case Simple(_, _) => 7
  }

  /** The argument in the head of an item. */
  function Arg(item: Item): nat {
    match item
    case Number(_, _, v) => v
    case Chunk(_, _, data) => |data|
    case Array(_, items) => Count(items)
    case Entries(_, entries) => Count(entries) / 2
    case Tagged(_, tag, _) => tag
    case Simple(_, v) => v
  }

  predicate Valid(item: Item)
    decreases item, 1
  {
    Fits(item.width, Arg(item))
    && (item.Simple? || Arg(item) <= 0x1f_ffff_ffff_ffff)
    && match item
       case Array(_, items) => AllValid(items)
       case Entries(_, entries) => Count(entries) % 2 == 0 && AllValid(entries)
       case Tagged(_, _, inner) => Valid(inner)
       case _ => true
  }

  predicate AllValid(items: Items)
    decreases items, 0
  {
    items.Cons? ==> Valid(items.head) && AllValid(items.tail)
  }

  /** The bytes after the head. */
  function Body(item: Item): bytes
    requires Valid(item)
    decreases item, 1
  {
    match item
    case Chunk(_, _, data) => data
    case Array(_, items) => EncodeAll(items)
    case Entries(_, entries) => EncodeAll(entries)
    case Tagged(_, _, inner) => Encode(inner)
    case _ => []
  }

  function Encode(item: Item): (r: bytes)
    requires Valid(item)
    ensures |r| > 0
    decreases item, 2
  {
    ItemHead(Major(item), item.width, Arg(item)) + Body(item)
  }

  function EncodeAll(items: Items): bytes
    requires AllValid(items)
    decreases items, 0
  {
    match items
    case Nil => []
    case Cons(head, tail) => Encode(head) + EncodeAll(tail)
  }

  // ----- the argument reader

  datatype ArgumentField = ArgumentField(value: nat, nextOffset: nat)

  function ReadWidth(b: bytes, offset: nat, n: nat): Option<ArgumentField> {
    if offset + n <= |b| then Some(ArgumentField(FromBE(b[offset..offset + n]), offset + n)) else None
  }

  function ReadCborArgument(b: bytes, offset: nat, info: nat): Option<ArgumentField> {
    if info < 24 then Some(ArgumentField(info, offset))
    else if info == 24 then ReadWidth(b, offset, 1)
    else if info == 25 then ReadWidth(b, offset, 2)
    else if info == 26 then ReadWidth(b, offset, 4)
    else if info == 27 then
      var field :- ReadWidth(b, offset, 8);
      if field.value <= MAX_SAFE_INTEGER then Some(field) else None
    else None
  }

  /** The width an initial byte announces. */
  function WidthOf(info: nat): Option<Width> {
    if info < 24 then Some(Direct)
    else if info == 24 then Some(One)
    else if info == 25 then Some(Two)
    else if info == 26 then Some(Four)
    else if info == 27 then Some(Eight)
    else None
  }

  lemma HeadReads(b: bytes, offset: nat, major: nat, w: Width, v: nat)
    requires major < 8 && Fits(w, v) && At(b, offset, ItemHead(major, w, v))
    ensures b[offset] / 32 == major && WidthOf(b[offset] % 32) == Some(w)
    ensures v <= 0x1f_ffff_ffff_ffff ==>
              ReadCborArgument(b, offset + 1, b[offset] % 32) == Some(ArgumentField(v, offset + 1 + Size(w)))
  {
    AtFirst(b, offset, ItemHead(major, w, v));
    if !w.Direct? {
      var argument := BE(v, Size(w));
      AtParts(b, offset, [major * 32 + Info(w)], argument);
      AtSameLength(b, offset + 1, argument, b[offset + 1..offset + 1 + Size(w)]);
      ReadsBackBE(v, Size(w));
    }
  }

  /** A read argument is a head of the announced width. */
  lemma ReadIsHead(b: bytes, offset: nat)
    requires offset < |b| && ReadCborArgument(b, offset + 1, b[offset] % 32).Some?
    ensures WidthOf(b[offset] % 32).Some?
    ensures var (w, field) := (WidthOf(b[offset] % 32).value, ReadCborArgument(b, offset + 1, b[offset] % 32).value);
            Argument(w, field.value) && At(b, offset, ItemHead(b[offset] / 32, w, field.value))
            && field.nextOffset == offset + 1 + Size(w)
  {
    var w, field := WidthOf(b[offset] % 32).value, ReadCborArgument(b, offset + 1, b[offset] % 32).value;
    if !w.Direct? {
      WidthStands(b, offset, w);
      SmallWidths(w, field.value);
    }
  }

  lemma SmallWidths(w: Width, v: nat)
    requires Fits(w, v)
    ensures w != Eight ==> v <= 0x1f_ffff_ffff_ffff
  {
    Widths();
  }

  lemma HeadByte(x: byte, w: Width)
    requires !w.Direct? && x % 32 == Info(w)
    ensures x == x / 32 * 32 + Info(w) && x / 32 < 8
  {
  }

  lemma {:induction false} ArgumentFits(argument: bytes, n: nat)
    requires |argument| == n
    ensures FromBE(argument) < Pow256(n) && BE(FromBE(argument), n) == argument
  {
    WritesBackBE(argument);
  }

  lemma WidthStands(b: bytes, offset: nat, w: Width)
    requires !w.Direct? && offset + 1 + Size(w) <= |b| && b[offset] % 32 == Info(w)
    ensures var v := FromBE(b[offset + 1..offset + 1 + Size(w)]);
            Fits(w, v) && At(b, offset, ItemHead(b[offset] / 32, w, v))
  {
    var argument := b[offset + 1..offset + 1 + Size(w)];
    HeadByte(b[offset], w);
    ArgumentFits(argument, Size(w));
    FirstThenArgument(b, offset, argument);
  }

  lemma FirstThenArgument(b: bytes, offset: nat, argument: bytes)
    requires offset + 1 + |argument| <= |b| && argument == b[offset + 1..offset + 1 + |argument|]
    ensures At(b, offset, [b[offset]] + argument)
  {
    AtIsSlice(b, offset + 1, argument);
    AtParts(b, offset, [b[offset]], argument);
  }

  // ----- the skipper as a function

  function Skip(b: bytes, offset: nat): (r: Option<nat>)
    ensures r.Some? ==> offset < r.value <= |b|
    decreases |b| - offset, 0
  {
    if offset >= |b| then None
    else
      var major, info := b[offset] / 32, b[offset] % 32;
      if major <= 1 then
        var field :- ReadCborArgument(b, offset + 1, info);
        Some(field.nextOffset)
      else if major <= 3 then
        var field :- ReadCborArgument(b, offset + 1, info);
        if field.nextOffset + field.value <= |b| then Some(field.nextOffset + field.value) else None
      else if major == 4 then
        var field :- ReadCborArgument(b, offset + 1, info);
        SkipMany(b, field.nextOffset, field.value)
      else if major == 5 then
        var field :- ReadCborArgument(b, offset + 1, info);
        SkipMany(b, field.nextOffset, 2 * field.value)
      else if major == 6 then
        var field :- ReadCborArgument(b, offset + 1, info);
        Skip(b, field.nextOffset)
      else SkipSimple(b, offset + 1, info)
  }

  function SkipSimple(b: bytes, offset: nat, info: nat): (r: Option<nat>)
    requires offset <= |b|
    ensures r.Some? ==> offset <= r.value <= |b|
  {
    if info < 24 then Some(offset)
    else if info == 24 && offset + 1 <= |b| then Some(offset + 1)
    else if info == 25 && offset + 2 <= |b| then Some(offset + 2)
    else if info == 26 && offset + 4 <= |b| then Some(offset + 4)
    else if info == 27 && offset + 8 <= |b| then Some(offset + 8)
    else None
  }

  /** Skipping `count` items; it consumes at least one byte for each of them. */
  function SkipMany(b: bytes, offset: nat, count: nat): (r: Option<nat>)
    requires offset <= |b|
    ensures r.Some? ==> offset + count <= r.value <= |b|
    decreases |b| - offset, 1
  {
    if count == 0 then Some(offset)
    else
      var next :- Skip(b, offset);
      SkipMany(b, next, count - 1)
  }

  // ----- where encodings stand; the encodings themselves come up only where they are taken apart

  ghost predicate IsHead(major: nat, w: Width, v: nat, code: bytes) {
    major < 8 && Fits(w, v) && code == ItemHead(major, w, v)
  }

  /** A head stands at the offset and ends at `next`. */
  ghost predicate HeadAt(b: bytes, offset: nat, major: nat, w: Width, v: nat, next: nat) {
    major < 8 && Fits(w, v)
    && forall code {:trigger IsHead(major, w, v, code)} ::
         IsHead(major, w, v, code) ==> At(b, offset, code) && next == offset + |code|
  }

  ghost predicate IsCode(item: Item, code: bytes) {
    Valid(item) && code == Encode(item)
  }

  /** An encoded item stands at the offset and ends at `end`. */
  ghost predicate ItemAt(b: bytes, offset: nat, item: Item, end: nat) {
    Valid(item)
    && forall code {:trigger IsCode(item, code)} :: IsCode(item, code) ==> At(b, offset, code) && end == offset + |code|
  }

  ghost predicate IsCodeOfAll(items: Items, code: bytes) {
    AllValid(items) && code == EncodeAll(items)
  }

  ghost predicate ItemsAt(b: bytes, offset: nat, items: Items, end: nat) {
    AllValid(items)
    && forall code {:trigger IsCodeOfAll(items, code)} ::
         IsCodeOfAll(items, code) ==> At(b, offset, code) && end == offset + |code|
  }

  ghost predicate IsBody(item: Item, body: bytes) {
    Valid(item) && body == Body(item)
  }

  /** The body of an item stands at the offset and ends at `end`. */
  ghost predicate BodyAt(b: bytes, offset: nat, item: Item, end: nat) {
    Valid(item)
    && forall body {:trigger IsBody(item, body)} :: IsBody(item, body) ==> At(b, offset, body) && end == offset + |body|
  }

  lemma {:induction false} StandingItem(b: bytes, offset: nat, item: Item)
    requires Valid(item)
    ensures At(b, offset, Encode(item)) <==> ItemAt(b, offset, item, offset + |Encode(item)|)
  {
    assert IsCode(item, Encode(item));
  }

  lemma {:induction false} ItemEnd(b: bytes, offset: nat, item: Item, end: nat)
    requires ItemAt(b, offset, item, end)
    ensures At(b, offset, Encode(item)) && end == offset + |Encode(item)|
  {
    assert IsCode(item, Encode(item));
  }

  /** An item is its head followed by its body. */
  lemma ItemIsHeadAndBody(b: bytes, offset: nat, item: Item, end: nat)
    requires ItemAt(b, offset, item, end)
    ensures HeadAt(b, offset, Major(item), item.width, Arg(item), offset + 1 + Size(item.width))
    ensures BodyAt(b, offset + 1 + Size(item.width), item, end)
  {
    ItemEnd(b, offset, item, end);
    AtParts(b, offset, ItemHead(Major(item), item.width, Arg(item)), Body(item));
  }

  lemma {:induction false} HeadAndBodyAreItem(b: bytes, offset: nat, item: Item, next: nat, end: nat)
    requires Valid(item) && HeadAt(b, offset, Major(item), item.width, Arg(item), next) && BodyAt(b, next, item, end)
    ensures ItemAt(b, offset, item, end)
  {
    var head, body := ItemHead(Major(item), item.width, Arg(item)), Body(item);
    assert IsHead(Major(item), item.width, Arg(item), head);
    assert IsBody(item, body);
    AtParts(b, offset, head, body);
    JoinedIsCode(b, offset, item, head, body);
  }

  lemma JoinedIsCode(b: bytes, offset: nat, item: Item, head: bytes, body: bytes)
    requires IsHead(Major(item), item.width, Arg(item), head) && IsBody(item, body) && At(b, offset, head + body)
    ensures ItemAt(b, offset, item, offset + |head| + |body|)
  {
  }

  lemma HeadEnds(b: bytes, offset: nat, major: nat, w: Width, v: nat, next: nat)
    requires HeadAt(b, offset, major, w, v, next)
    ensures At(b, offset, ItemHead(major, w, v)) && next == offset + 1 + Size(w)
  {
    assert IsHead(major, w, v, ItemHead(major, w, v));
  }

  /** What stands in a body, kind by kind. */
  lemma {:induction false} ListBody(b: bytes, offset: nat, item: Item, items: Items, end: nat)
    requires Valid(item) && (item == Array(item.width, items) || item == Entries(item.width, items))
    ensures BodyAt(b, offset, item, end) <==> ItemsAt(b, offset, items, end)
  {
    assert Body(item) == EncodeAll(items);
    assert IsBody(item, Body(item));
    assert IsCodeOfAll(items, EncodeAll(items));
  }

  lemma {:induction false} TaggedBody(b: bytes, offset: nat, item: Item, inner: Item, end: nat)
    requires Valid(item) && item.Tagged? && item.item == inner
    ensures BodyAt(b, offset, item, end) <==> ItemAt(b, offset, inner, end)
  {
    assert Body(item) == Encode(inner);
    assert IsBody(item, Body(item));
    assert IsCode(inner, Encode(inner));
  }

  lemma {:induction false} ChunkBody(b: bytes, offset: nat, item: Item, end: nat)
    requires Valid(item) && item.Chunk?
    ensures BodyAt(b, offset, item, end) <==> At(b, offset, item.data) && end == offset + |item.data|
  {
    assert IsBody(item, item.data);
  }

  lemma {:induction false} NoBody(b: bytes, offset: nat, item: Item, end: nat)
    requires Valid(item) && (item.Number? || item.Simple?)
    ensures BodyAt(b, offset, item, end) <==> offset <= |b| && end == offset
  {
    assert IsBody(item, []);
  }

  lemma ConsParts(b: bytes, offset: nat, head: Item, tail: Items, mid: nat, end: nat)
    requires ItemAt(b, offset, head, mid) && ItemsAt(b, mid, tail, end)
    ensures ItemsAt(b, offset, Cons(head, tail), end)
  {
    ItemEnd(b, offset, head, mid);
    assert IsCodeOfAll(tail, EncodeAll(tail));
    AtParts(b, offset, Encode(head), EncodeAll(tail));
  }

  lemma {:induction false} ItemsEnd(b: bytes, offset: nat, items: Items, end: nat)
    requires ItemsAt(b, offset, items, end)
    ensures At(b, offset, EncodeAll(items)) && end == offset + |EncodeAll(items)|
  {
    assert IsCodeOfAll(items, EncodeAll(items));
  }

  lemma ConsApart(b: bytes, offset: nat, head: Item, tail: Items, end: nat) returns (mid: nat)
    requires ItemsAt(b, offset, Cons(head, tail), end)
    ensures ItemAt(b, offset, head, mid) && ItemsAt(b, mid, tail, end)
  {
    ItemsEnd(b, offset, Cons(head, tail), end);
    AtParts(b, offset, Encode(head), EncodeAll(tail));
    mid := offset + |Encode(head)|;
  }

  lemma NoItems(b: bytes, offset: nat, end: nat)
    ensures ItemsAt(b, offset, Nil, end) <==> offset <= |b| && end == offset
  {
    assert IsCodeOfAll(Nil, []);
  }

  // ----- skipping ends exactly at the end of an encoded item

  /** What skipping does once the head is read. */
  function AfterHead(b: bytes, major: nat, field: ArgumentField): Option<nat>
    requires field.nextOffset <= |b|
  {
    if major <= 1 then Some(field.nextOffset)
    else if major <= 3 then
      if field.nextOffset + field.value <= |b| then Some(field.nextOffset + field.value) else None
    else if major == 4 then SkipMany(b, field.nextOffset, field.value)
    else if major == 5 then SkipMany(b, field.nextOffset, 2 * field.value)
    else Skip(b, field.nextOffset)
  }

  lemma ArgumentWithin(b: bytes, offset: nat, info: nat)
    requires offset <= |b| && ReadCborArgument(b, offset, info).Some?
    ensures offset <= ReadCborArgument(b, offset, info).value.nextOffset <= |b|
  {
  }

  lemma {:induction false} SkipByHead(b: bytes, offset: nat)
    requires offset < |b| && b[offset] / 32 < 7
    ensures var field := ReadCborArgument(b, offset + 1, b[offset] % 32);
            if field.None? then Skip(b, offset) == None
            else offset < field.value.nextOffset <= |b| && Skip(b, offset) == AfterHead(b, b[offset] / 32, field.value)
  {
    var field := ReadCborArgument(b, offset + 1, b[offset] % 32);
    if field.Some? {
      ArgumentWithin(b, offset + 1, b[offset] % 32);
      SkipByField(b, offset, b[offset] / 32, b[offset] % 32, field.value);
    }
  }

  lemma {:induction false} SkipByField(b: bytes, offset: nat, major: nat, info: nat, field: ArgumentField)
    requires offset < |b| && major == b[offset] / 32 < 7 && info == b[offset] % 32
    requires ReadCborArgument(b, offset + 1, info) == Some(field) && offset < field.nextOffset <= |b|
    ensures Skip(b, offset) == AfterHead(b, major, field)
  {
  }

  lemma {:induction false} HeadSkips(b: bytes, offset: nat, major: nat, w: Width, v: nat, next: nat)
    requires major < 7 && v <= 0x1f_ffff_ffff_ffff && HeadAt(b, offset, major, w, v, next)
    ensures next <= |b| && next == offset + 1 + Size(w)
    ensures Skip(b, offset) == AfterHead(b, major, ArgumentField(v, next))
  {
    HeadEnds(b, offset, major, w, v, next);
    HeadReads(b, offset, major, w, v);
    SkipByHead(b, offset);
  }

  lemma {:induction false} ItemSkips(b: bytes, offset: nat, item: Item, end: nat)
    requires ItemAt(b, offset, item, end)
    ensures Skip(b, offset) == Some(end)
    decreases item, 1
  {
    var next := offset + 1 + Size(item.width);
    ItemIsHeadAndBody(b, offset, item, end);
    if item.Simple? {
      NoBody(b, next, item, end);
      SimpleSkips(b, offset, item.width, item.value, next);
    } else {
      HeadSkips(b, offset, Major(item), item.width, Arg(item), next);
      BodySkips(b, next, item, end);
    }
  }

  lemma {:induction false} BodySkips(b: bytes, offset: nat, item: Item, end: nat)
    requires !item.Simple? && offset <= |b| && BodyAt(b, offset, item, end)
    ensures AfterHead(b, Major(item), ArgumentField(Arg(item), offset)) == Some(end)
    decreases item, 0
  {
    match item
    case Number(_, _, _) => NoBody(b, offset, item, end);
    case Chunk(_, _, data) => ChunkBody(b, offset, item, end);
    case Array(_, items) =>
      ListBody(b, offset, item, items, end);
      ItemsSkip(b, offset, items, end);
    case Entries(_, entries) =>
      ListBody(b, offset, item, entries, end);
      ItemsSkip(b, offset, entries, end);
    case Tagged(_, _, inner) =>
      TaggedBody(b, offset, item, inner, end);
      ItemSkips(b, offset, inner, end);
  }

  lemma {:induction false} SimpleSkips(b: bytes, offset: nat, w: Width, v: nat, next: nat)
    requires HeadAt(b, offset, 7, w, v, next)
    ensures Skip(b, offset) == Some(next)
  {
    HeadEnds(b, offset, 7, w, v, next);
    HeadReads(b, offset, 7, w, v);
  }

  lemma {:induction false} ItemsSkip(b: bytes, offset: nat, items: Items, end: nat)
    requires ItemsAt(b, offset, items, end)
    ensures offset <= |b| && SkipMany(b, offset, Count(items)) == Some(end)
    decreases items, 0
  {
    match items
    case Nil => NoItems(b, offset, end);
    case Cons(head, tail) =>
      var mid := ConsApart(b, offset, head, tail, end);
      ItemSkips(b, offset, head, mid);
      ItemsSkip(b, mid, tail, end);
      SkipManyStep(b, offset, Count(tail), mid);
  }

  lemma SkipManyStep(b: bytes, offset: nat, count: nat, next: nat)
    requires Skip(b, offset) == Some(next)
    ensures SkipMany(b, offset, count + 1) == SkipMany(b, next, count)
  {
  }

  lemma {:induction false} SkipsEncoded(b: bytes, offset: nat, item: Item)
    requires Valid(item) && At(b, offset, Encode(item))
    ensures Skip(b, offset) == Some(offset + |Encode(item)|)
  {
    StandingItem(b, offset, item);
    ItemSkips(b, offset, item, offset + |Encode(item)|);
  }

  // ----- and nothing else is skipped

  /** A read argument is a head standing there. */
  lemma ReadHead(b: bytes, offset: nat) returns (w: Width)
    requires offset < |b| && ReadCborArgument(b, offset + 1, b[offset] % 32).Some?
    ensures var field := ReadCborArgument(b, offset + 1, b[offset] % 32).value;
            Argument(w, field.value) && HeadAt(b, offset, b[offset] / 32, w, field.value, field.nextOffset)
  {
    ReadIsHead(b, offset);
    w := WidthOf(b[offset] % 32).value;
  }

  /** Every skipped range is the encoding of an item, which this lemma returns. */
  lemma {:induction false} SkippedItem(b: bytes, offset: nat, end: nat) returns (item: Item)
    requires Skip(b, offset) == Some(end)
    ensures ItemAt(b, offset, item, end)
    decreases |b| - offset, 1
  {
    if b[offset] / 32 == 7 {
      item := SkippedSimple(b, offset, end);
    } else {
      SkipByHead(b, offset);
      var field := ReadCborArgument(b, offset + 1, b[offset] % 32).value;
      var w := ReadHead(b, offset);
      item := SkippedBody(b, offset, b[offset] / 32, w, field, end);
      HeadAndBodyAreItem(b, offset, item, field.nextOffset, end);
    }
  }

  lemma {:induction false} SkippedBody(b: bytes, offset: nat, major: nat, w: Width, field: ArgumentField, end: nat)
    returns (item: Item)
    requires major < 7 && Argument(w, field.value) && offset < field.nextOffset <= |b|
    requires AfterHead(b, major, field) == Some(end)
    ensures Valid(item) && Major(item) == major && item.width == w && Arg(item) == field.value
    ensures BodyAt(b, field.nextOffset, item, end)
    decreases |b| - offset, 0
  {
    if major <= 1 {
      item := Number(major == 1, w, field.value);
      NoBody(b, field.nextOffset, item, end);
    } else if major <= 3 {
      item := SkippedChunk(b, major, w, field, end);
    } else if major <= 5 {
      var items := SkippedItems(b, field.nextOffset, if major == 4 then field.value else 2 * field.value, end);
      item := ListIsItem(major, w, field.value, items);
      ListBody(b, field.nextOffset, item, items, end);
    } else {
      var inner := SkippedItem(b, field.nextOffset, end);
      item := Tagged(w, field.value, inner);
      TaggedBody(b, field.nextOffset, item, inner, end);
    }
  }

  lemma SkippedChunk(b: bytes, major: nat, w: Width, field: ArgumentField, end: nat) returns (item: Item)
    requires 2 <= major <= 3 && Argument(w, field.value) && end == field.nextOffset + field.value <= |b|
    ensures Valid(item) && Major(item) == major && item.width == w && Arg(item) == field.value
    ensures BodyAt(b, field.nextOffset, item, end)
  {
    var data := b[field.nextOffset..end];
    item := Chunk(major == 3, w, data);
    AtIsSlice(b, field.nextOffset, data);
    ChunkBody(b, field.nextOffset, item, end);
  }

  lemma ListIsItem(major: nat, w: Width, v: nat, items: Items) returns (item: Item)
    requires 4 <= major <= 5 && Argument(w, v)
    requires AllValid(items) && Count(items) == if major == 4 then v else 2 * v
    ensures Valid(item) && Major(item) == major && item.width == w && Arg(item) == v
    ensures item == Array(w, items) || item == Entries(w, items)
  {
    item := if major == 4 then Array(w, items) else Entries(w, items);
  }

  lemma SkippedSimple(b: bytes, offset: nat, end: nat) returns (item: Item)
    requires offset < |b| && b[offset] / 32 == 7 && Skip(b, offset) == Some(end)
    ensures ItemAt(b, offset, item, end)
  {
    var w, v := SkippedSimpleHead(b, offset, end);
    item := Simple(w, v);
    NoBody(b, end, item, end);
    HeadEnds(b, offset, 7, w, v, end);
    HeadAndBodyAreItem(b, offset, item, end, end);
  }

  lemma SkippedSimpleHead(b: bytes, offset: nat, end: nat) returns (w: Width, v: nat)
    requires offset < |b| && b[offset] / 32 == 7 && Skip(b, offset) == Some(end)
    ensures HeadAt(b, offset, 7, w, v, end)
  {
    w := WidthOf(b[offset] % 32).value;
    if w.Direct? {
      v := b[offset] % 32;
      assert At(b, offset, [b[offset]]);
    } else {
      v := FromBE(b[offset + 1..offset + 1 + Size(w)]);
      WidthStands(b, offset, w);
    }
  }

  lemma {:induction false} SkippedItems(b: bytes, offset: nat, count: nat, end: nat) returns (items: Items)
    requires offset <= |b| && SkipMany(b, offset, count) == Some(end)
    ensures Count(items) == count && ItemsAt(b, offset, items, end)
    decreases |b| - offset, 2
  {
    if count == 0 {
      items := Nil;
      NoItems(b, offset, end);
    } else {
      var mid := Skip(b, offset).value;
      var head := SkippedItem(b, offset, mid);
      var tail := SkippedItems(b, mid, count - 1, end);
      ConsParts(b, offset, head, tail, mid, end);
      items := Cons(head, tail);
    }
  }

  /** Skipping is exact: it ends where, and only where, an encoded item ends. */
  lemma {:induction false} SkipIsExact(b: bytes, offset: nat, end: nat)
    ensures Skip(b, offset) == Some(end) <==> exists item :: ItemAt(b, offset, item, end)
  {
    if Skip(b, offset) == Some(end) {
      var item := SkippedItem(b, offset, end);
    }
    if item :| ItemAt(b, offset, item, end) {
      ItemSkips(b, offset, item, end);
    }
  }

  /** The form the SDK relies on: an item followed by anything is skipped to its last byte. */
  lemma {:induction false} SkipsOverItem(before: bytes, item: Item, rest: bytes)
    requires Valid(item)
    ensures Skip(before + Encode(item) + rest, |before|) == Some(|before| + |Encode(item)|)
  {
    AtMiddle(before, Encode(item), rest);
    SkipsEncoded(before + Encode(item) + rest, |before|, item);
  }

  // ----- the recursive method with its loops

  method SkipCborItem(b: bytes, start: nat) returns (r: Option<nat>)
    ensures r == Skip(b, start)
    decreases |b| - start, 0
  {
    var offset := start;
    if offset >= |b| { return None; }
    var initialByte := b[offset];
    offset := offset + 1;
    var majorType, additionalInfo := initialByte / 32, initialByte % 32;
    if majorType < 7 {
      SkipByHead(b, start);
      var field := ReadCborArgument(b, offset, additionalInfo);
      if field.None? { return None; }
      var nextOffset, value := field.value.nextOffset, field.value.value;
      if majorType <= 1 {
        return Some(nextOffset);
      } else if majorType <= 3 {
        return if nextOffset + value <= |b| then Some(nextOffset + value) else None;
      } else if majorType == 4 {
        r := SkipElements(b, nextOffset, value);
      } else if majorType == 5 {
        r := SkipEntries(b, nextOffset, value);
      } else {
        r := SkipCborItem(b, nextOffset);
      }
    } else {
      r := SkipSimple(b, offset, additionalInfo);
    }
  }

  /** The loop of an array: `count` items. */
  method SkipElements(b: bytes, start: nat, count: nat) returns (r: Option<nat>)
    requires start <= |b|
    ensures r == SkipMany(b, start, count)
    decreases |b| - start, 1
  {
    var nextOffset, i := start, 0;
    while i < count
      invariant 0 <= i <= count && start <= nextOffset <= |b|
      invariant SkipMany(b, start, count) == SkipMany(b, nextOffset, count - i)
    {
      var next := SkipCborItem(b, nextOffset);
      if next.None? { return None; }
      nextOffset := next.value;
      i := i + 1;
    }
    r := Some(nextOffset);
  }

  /** The loop of a map: `count` pairs of a key and a value. */
  method SkipEntries(b: bytes, start: nat, count: nat) returns (r: Option<nat>)
    requires start <= |b|
    ensures r == SkipMany(b, start, 2 * count)
    decreases |b| - start, 1
  {
    var nextOffset, i := start, 0;
    while i < count
      invariant 0 <= i <= count && start <= nextOffset <= |b|
      invariant SkipMany(b, start, 2 * count) == SkipMany(b, nextOffset, 2 * (count - i))
    {
      var key := SkipCborItem(b, nextOffset);
      if key.None? { return None; }
      nextOffset := key.value;
      var value := SkipCborItem(b, nextOffset);
      if value.None? { return None; }
      nextOffset := value.value;
      i := i + 1;
    }
    r := Some(nextOffset);
  }
}
