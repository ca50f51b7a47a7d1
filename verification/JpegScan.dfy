/**
 Reading the size of a JPEG image from its frame header.  The reference is a grammar of marker
 segments after section B.2.2 of ITU-T T.81.
 */
module JpegScan {
  import opened Optional

  type Byte = b: int | 0 <= b < 256

  datatype Size = Size(width: nat, height: nat)

  predicate IsJpeg(buffer: seq<Byte>) {
    |buffer| >= 4 && buffer[0] == 0xFF && buffer[1] == 0xD8
  }

  function ReadUInt16BE(buffer: seq<Byte>, offset: nat): nat
    requires offset + 2 <= |buffer|
  {
    buffer[offset] as int * 256 + buffer[offset + 1]
  }

  /** Markers without a length: SOI, EOI, TEM and the restart markers. */
  predicate IsStandalone(marker: Byte) {
    marker == 0x01 || 0xD0 <= marker <= 0xD9
  }

  /** Start of frame; between them lie DHT (0xC4), JPG (0xC8) and DAC (0xCC). */
  predicate IsFrame(marker: Byte) {
    0xC0 <= marker <= 0xCF && marker != 0xC4 && marker != 0xC8 && marker != 0xCC
  }

  /** What the scanner does at one offset: stop with an answer, or go on further along. */
  datatype Step = Stop(answer: Option<Size>) | GoOn(offset: nat)

  function StepAt(buffer: seq<Byte>, offset: nat): (s: Step)
    requires offset + 9 < |buffer|
    ensures s.GoOn? ==> offset < s.offset <= |buffer|
  {
    if buffer[offset] != 0xFF then GoOn(offset + 1)
    else if IsStandalone(buffer[offset + 1]) then GoOn(offset + 2)
    else
      var length := ReadUInt16BE(buffer, offset + 2);
      if length < 2 || offset + 2 + length > |buffer| then Stop(None)
      else if !IsFrame(buffer[offset + 1]) then GoOn(offset + 2 + length)
      else if length < 7 then Stop(None)
      else Stop(Some(Size(ReadUInt16BE(buffer, offset + 7), ReadUInt16BE(buffer, offset + 5))))
  }

  function Scan(buffer: seq<Byte>, offset: nat): Option<Size>
    decreases |buffer| - offset
  {
    if offset + 9 >= |buffer| then None
    else
      match StepAt(buffer, offset)
      case Stop(answer) => answer
      case GoOn(next) => Scan(buffer, next)
  }

  method ReadJpegDimensions(buffer: seq<Byte>) returns (size: Option<Size>)
    ensures size == Scan(buffer, 2)
  {
    var offset := 2;
    while offset + 9 < |buffer|
      invariant 0 <= offset
      invariant Scan(buffer, offset) == Scan(buffer, 2)
      decreases |buffer| - offset
    {
      ghost var start := offset;
      if buffer[offset] != 0xFF {
        offset := offset + 1;
        continue;
      }
      var marker := buffer[offset + 1];
      offset := offset + 2;
      if marker == 0xD8 || marker == 0xD9 {
        assert StepAt(buffer, start) == GoOn(offset);
        continue;
      }
      if marker == 0x01 || 0xD0 <= marker <= 0xD7 {
        assert StepAt(buffer, start) == GoOn(offset);
        continue;
      }
      if offset + 2 > |buffer| {
        return None;
      }
      var length := ReadUInt16BE(buffer, offset);
      if length < 2 || offset + length > |buffer| {
        return None;
      }
      if || 0xC0 <= marker <= 0xC3 || 0xC5 <= marker <= 0xC7
         || 0xC9 <= marker <= 0xCB || 0xCD <= marker <= 0xCF {
        if length < 7 {
          return None;
        }
        return Some(Size(ReadUInt16BE(buffer, offset + 5), ReadUInt16BE(buffer, offset + 3)));
      }
      offset := offset + length;
      assert StepAt(buffer, start) == GoOn(offset);
    }
    return None;
  }

  // ----- the grammar -----

  /** What may stand before a frame header.  `Stray` is a byte between segments. */
  datatype Item =
    | Stray(b: Byte)
    | Standalone(marker: Byte)
    | Segment(marker: Byte, payload: seq<Byte>)

  datatype Frame = Frame(marker: Byte, precision: Byte, size: Size, rest: seq<Byte>)

  /** Lengths and dimensions are 16-bit; a segment's length counts its own two bytes. */
  predicate IsItem(item: Item) {
    match item
    case Stray(b) => b != 0xFF
    case Standalone(m) => IsStandalone(m)
    case Segment(m, payload) => !IsStandalone(m) && !IsFrame(m) && |payload| + 2 < 0x10000
  }

  predicate AllItems(items: seq<Item>) {
    forall i :: 0 <= i < |items| ==> IsItem(items[i])
  }

  predicate IsFrameHeader(f: Frame) {
    IsFrame(f.marker) && f.size.width < 0x10000 && f.size.height < 0x10000 && |f.rest| + 7 < 0x10000
  }

  function UInt16(n: nat): (bytes: seq<Byte>)
    requires n < 0x10000
    ensures |bytes| == 2 && bytes[0] as int * 256 + bytes[1] == n
  {
    [n / 256, n % 256]
  }

  function ItemBytes(item: Item): seq<Byte>
    requires IsItem(item)
  {
    match item
    case Stray(b) => [b]
    case Standalone(m) => [0xFF, m]
    case Segment(m, payload) => [0xFF, m] + UInt16(|payload| + 2) + payload
  }

  function StreamBytes(items: seq<Item>): seq<Byte>
    requires AllItems(items)
  {
    if items == [] then [] else ItemBytes(items[0]) + StreamBytes(items[1..])
  }

  function FrameBytes(f: Frame): seq<Byte>
    requires IsFrameHeader(f)
  {
    [0xFF, f.marker] + UInt16(|f.rest| + 7) + [f.precision] + UInt16(f.size.height) + UInt16(f.size.width) + f.rest
  }

  ghost predicate HoldsAt(buffer: seq<Byte>, offset: nat, bytes: seq<Byte>) {
    offset + |bytes| <= |buffer| && buffer[offset..offset + |bytes|] == bytes
  }

  lemma HoldsConcat(buffer: seq<Byte>, offset: nat, a: seq<Byte>, b: seq<Byte>)
    ensures HoldsAt(buffer, offset, a + b) <==> HoldsAt(buffer, offset, a) && HoldsAt(buffer, offset + |a|, b)
  {
    var end := offset + |a| + |b|;
    if end <= |buffer| {
      var part := buffer[offset..end];
      assert part[..|a|] == buffer[offset..offset + |a|];
      assert part[|a|..] == buffer[offset + |a|..end];
      assert (a + b)[..|a|] == a && (a + b)[|a|..] == b;
      assert part == part[..|a|] + part[|a|..];
    }
  }

  /** From `offset` on, the buffer holds `items`, then a frame header and at least one byte past its width. */
  ghost predicate HoldsImage(buffer: seq<Byte>, offset: nat, items: seq<Item>, f: Frame) {
    && AllItems(items) && IsFrameHeader(f)
    && HoldsAt(buffer, offset, StreamBytes(items))
    && HoldsAt(buffer, offset + |StreamBytes(items)|, FrameBytes(f))
    && offset + |StreamBytes(items)| + 9 < |buffer|
  }

  // ----- every such stream is read -----

  lemma ByteAt(buffer: seq<Byte>, offset: nat, bytes: seq<Byte>, i: nat)
    requires HoldsAt(buffer, offset, bytes) && i < |bytes|
    ensures buffer[offset + i] == bytes[i]
  {
    assert buffer[offset..offset + |bytes|][i] == bytes[i];
  }

  lemma FrameLayout(f: Frame)
    requires IsFrameHeader(f)
    ensures var bytes := FrameBytes(f);
            && |bytes| == 9 + |f.rest|
            && bytes[0] == 0xFF && bytes[1] == f.marker
            && ReadUInt16BE(bytes, 2) == |f.rest| + 7
            && ReadUInt16BE(bytes, 5) == f.size.height
            && ReadUInt16BE(bytes, 7) == f.size.width
  {
  }

  lemma WordAt(buffer: seq<Byte>, offset: nat, bytes: seq<Byte>, i: nat)
    requires HoldsAt(buffer, offset, bytes) && i + 1 < |bytes|
    ensures ReadUInt16BE(buffer, offset + i) == ReadUInt16BE(bytes, i)
  {
    ByteAt(buffer, offset, bytes, i);
    ByteAt(buffer, offset, bytes, i + 1);
  }

  lemma FrameIsFound(buffer: seq<Byte>, offset: nat, f: Frame)
    requires IsFrameHeader(f) && HoldsAt(buffer, offset, FrameBytes(f)) && offset + 9 < |buffer|
    ensures StepAt(buffer, offset) == Stop(Some(f.size))
  {
    var bytes := FrameBytes(f);
    FrameLayout(f);
    ByteAt(buffer, offset, bytes, 0);
    ByteAt(buffer, offset, bytes, 1);
    WordAt(buffer, offset, bytes, 2);
    WordAt(buffer, offset, bytes, 5);
    WordAt(buffer, offset, bytes, 7);
  }

  lemma ItemIsPassed(buffer: seq<Byte>, offset: nat, item: Item)
    requires IsItem(item) && HoldsAt(buffer, offset, ItemBytes(item)) && offset + 9 < |buffer|
    ensures StepAt(buffer, offset) == GoOn(offset + |ItemBytes(item)|)
  {
    var bytes := ItemBytes(item);
    ByteAt(buffer, offset, bytes, 0);
    if !item.Stray? {
      ByteAt(buffer, offset, bytes, 1);
    }
    if item.Segment? {
      WordAt(buffer, offset, bytes, 2);
      assert ReadUInt16BE(bytes, 2) == |item.payload| + 2;
    }
  }

  lemma ScanGoesOn(buffer: seq<Byte>, offset: nat, next: nat)
    requires offset + 9 < |buffer| && StepAt(buffer, offset) == GoOn(next)
    ensures Scan(buffer, offset) == Scan(buffer, next)
  {
  }

  lemma AllItemsSplit(items: seq<Item>)
    requires items != []
    ensures AllItems(items) <==> IsItem(items[0]) && AllItems(items[1..])
  {
    if IsItem(items[0]) && AllItems(items[1..]) {
      forall i | 0 <= i < |items|
        ensures IsItem(items[i])
      {
        assert i > 0 ==> items[i] == items[1..][i - 1];
      }
    }
  }

  /** An image that starts with an item is that item and then a shorter image. */
  lemma ImageSplits(buffer: seq<Byte>, offset: nat, items: seq<Item>, f: Frame)
    requires items != [] && AllItems(items) && AllItems(items[1..])
    ensures HoldsImage(buffer, offset, items, f) <==>
            && HoldsAt(buffer, offset, ItemBytes(items[0]))
            && HoldsImage(buffer, offset + |ItemBytes(items[0])|, items[1..], f)
  {
    var first, rest := ItemBytes(items[0]), StreamBytes(items[1..]);
    HoldsConcat(buffer, offset, first, rest);
    assert StreamBytes(items) == first + rest && |first + rest| == |first| + |rest|;
  }

  /** The scan passes over `items` and then finds the frame header. */
  ghost predicate Passes(buffer: seq<Byte>, offset: nat, items: seq<Item>, size: Size)
    requires AllItems(items)
    decreases |items|
  {
    && offset + 9 < |buffer|
    && if items == [] then StepAt(buffer, offset) == Stop(Some(size))
       else
         var next := offset + |ItemBytes(items[0])|;
         StepAt(buffer, offset) == GoOn(next) && Passes(buffer, next, items[1..], size)
  }

  lemma {:induction false} PassedIsScanned(buffer: seq<Byte>, offset: nat, items: seq<Item>, size: Size)
    requires AllItems(items) && Passes(buffer, offset, items, size)
    ensures Scan(buffer, offset) == Some(size)
    decreases |items|
  {
    if items != [] {
      PassedIsScanned(buffer, offset + |ItemBytes(items[0])|, items[1..], size);
    }
  }

  lemma FrameIsNext(buffer: seq<Byte>, offset: nat, f: Frame)
    requires HoldsImage(buffer, offset, [], f)
    ensures offset + 9 < |buffer| && StepAt(buffer, offset) == Stop(Some(f.size))
  {
    FrameIsFound(buffer, offset, f);
  }

  lemma ItemIsNext(buffer: seq<Byte>, offset: nat, items: seq<Item>, f: Frame)
    requires items != [] && HoldsImage(buffer, offset, items, f)
    ensures IsItem(items[0]) && offset + 9 < |buffer|
    ensures StepAt(buffer, offset) == GoOn(offset + |ItemBytes(items[0])|)
    ensures HoldsImage(buffer, offset + |ItemBytes(items[0])|, items[1..], f)
  {
    AllItemsSplit(items);
    ImageSplits(buffer, offset, items, f);
    ItemIsPassed(buffer, offset, items[0]);
  }

  lemma {:induction false} ImageIsPassed(buffer: seq<Byte>, offset: nat, items: seq<Item>, f: Frame)
    requires HoldsImage(buffer, offset, items, f)
    ensures Passes(buffer, offset, items, f.size)
    decreases |items|
  {
    if items == [] {
      FrameIsNext(buffer, offset, f);
    } else {
      ItemIsNext(buffer, offset, items, f);
      ImageIsPassed(buffer, offset + |ItemBytes(items[0])|, items[1..], f);
    }
  }

  lemma StreamIsRead(buffer: seq<Byte>, offset: nat, items: seq<Item>, f: Frame)
    requires HoldsImage(buffer, offset, items, f)
    ensures Scan(buffer, offset) == Some(f.size)
  {
    ImageIsPassed(buffer, offset, items, f);
    PassedIsScanned(buffer, offset, items, f.size);
  }

  // ----- and nothing else is -----

  lemma FrameOfAnswer(buffer: seq<Byte>, offset: nat) returns (f: Frame)
    requires offset + 9 < |buffer| && StepAt(buffer, offset).Stop? && StepAt(buffer, offset).answer.Some?
    ensures IsFrameHeader(f) && HoldsAt(buffer, offset, FrameBytes(f))
    ensures f.size == StepAt(buffer, offset).answer.value
  {
    var length := ReadUInt16BE(buffer, offset + 2);
    f := Frame(buffer[offset + 1], buffer[offset + 4], StepAt(buffer, offset).answer.value,
               buffer[offset + 9..offset + 2 + length]);
    SplitWord(buffer, offset + 2);
    SplitWord(buffer, offset + 5);
    SplitWord(buffer, offset + 7);
    assert FrameBytes(f) == buffer[offset..offset + 2 + length];
  }

  lemma SplitWord(buffer: seq<Byte>, offset: nat)
    requires offset + 2 <= |buffer|
    ensures ReadUInt16BE(buffer, offset) < 0x10000
    ensures UInt16(ReadUInt16BE(buffer, offset)) == [buffer[offset], buffer[offset + 1]]
  {
  }

  lemma ItemOfStep(buffer: seq<Byte>, offset: nat) returns (item: Item)
    requires offset + 9 < |buffer| && StepAt(buffer, offset).GoOn?
    ensures IsItem(item) && HoldsAt(buffer, offset, ItemBytes(item))
    ensures StepAt(buffer, offset).offset == offset + |ItemBytes(item)|
  {
    if buffer[offset] != 0xFF {
      item := Stray(buffer[offset]);
    } else if IsStandalone(buffer[offset + 1]) {
      item := Standalone(buffer[offset + 1]);
    } else {
      item := SegmentOfStep(buffer, offset);
    }
  }

  lemma SegmentOfStep(buffer: seq<Byte>, offset: nat) returns (item: Item)
    requires offset + 9 < |buffer| && buffer[offset] == 0xFF && !IsStandalone(buffer[offset + 1])
    requires StepAt(buffer, offset).GoOn?
    ensures IsItem(item) && HoldsAt(buffer, offset, ItemBytes(item))
    ensures StepAt(buffer, offset).offset == offset + |ItemBytes(item)|
  {
    var length := ReadUInt16BE(buffer, offset + 2);
    var payload := buffer[offset + 4..offset + 2 + length];
    item := Segment(buffer[offset + 1], payload);
    var head: seq<Byte> := [0xFF, buffer[offset + 1]] + UInt16(length);
    assert HoldsAt(buffer, offset, head);
    HoldsConcat(buffer, offset, head, payload);
  }

  lemma FrameIsImage(buffer: seq<Byte>, offset: nat, f: Frame)
    requires IsFrameHeader(f) && HoldsAt(buffer, offset, FrameBytes(f)) && offset + 9 < |buffer|
    ensures HoldsImage(buffer, offset, [], f)
  {
    assert buffer[offset..offset] == [];
  }

  lemma {:induction false} AnswerHasStream(buffer: seq<Byte>, offset: nat) returns (items: seq<Item>, f: Frame)
    requires Scan(buffer, offset).Some?
    ensures HoldsImage(buffer, offset, items, f) && f.size == Scan(buffer, offset).value
    decreases |buffer| - offset
  {
    match StepAt(buffer, offset)
    case Stop(_) =>
      items := [];
      f := FrameOfAnswer(buffer, offset);
      FrameIsImage(buffer, offset, f);
    case GoOn(next) =>
      ScanGoesOn(buffer, offset, next);
      var item := ItemOfStep(buffer, offset);
      var rest;
      rest, f := AnswerHasStream(buffer, next);
      items := [item] + rest;
      assert items[1..] == rest;
      AllItemsSplit(items);
      ImageSplits(buffer, offset, items, f);
  }

  /** The scanner answers with a size exactly when a frame header of that size follows a stream of items. */
  lemma ReadsExactlyTheStreams(buffer: seq<Byte>, size: Size)
    ensures Scan(buffer, 2) == Some(size) <==> exists items, f :: HoldsImage(buffer, 2, items, f) && f.size == size
  {
    if Scan(buffer, 2) == Some(size) {
      var items, f := AnswerHasStream(buffer, 2);
    }
    if exists items, f :: HoldsImage(buffer, 2, items, f) && f.size == size {
      var items, f :| HoldsImage(buffer, 2, items, f) && f.size == size;
      StreamIsRead(buffer, 2, items, f);
    }
  }

  lemma HoldsInOrder(start: seq<Byte>, a: seq<Byte>, b: seq<Byte>, tail: seq<Byte>)
    ensures HoldsAt(start + a + b + tail, |start|, a) && HoldsAt(start + a + b + tail, |start| + |a|, b)
  {
  }

  /** A buffer is taken for a JPEG image exactly if it begins with the start of image and holds two bytes more. */
  lemma JpegBegins(buffer: seq<Byte>)
    ensures IsJpeg(buffer) <==> exists rest: seq<Byte> :: buffer == [0xFF, 0xD8] + rest && |rest| >= 2
  {
    if IsJpeg(buffer) {
      assert buffer == [0xFF, 0xD8] + buffer[2..];
    }
  }

  /** Markers without a length, and those that start a frame. */
  const STANDALONE_MARKERS: set<int> := {
    0x01, 0xD0, 0xD1, 0xD2, 0xD3, 0xD4, 0xD5, 0xD6, 0xD7, 0xD8, 0xD9
  }
  const FRAME_MARKERS: set<int> := {
    0xC0, 0xC1, 0xC2, 0xC3, 0xC5, 0xC6, 0xC7, 0xC9, 0xCA, 0xCB, 0xCD, 0xCE, 0xCF
  }

  /** What may stand before the frame header: a standalone marker, or a segment with a marker of another kind. */
  predicate MayPrecedeFrame(item: Item) {
    match item
    case Stray(_) => false
    case Standalone(m) => m in STANDALONE_MARKERS
    case Segment(m, payload) => m !in STANDALONE_MARKERS && m !in FRAME_MARKERS && |payload| <= 65533
  }

  lemma MarkersAreKnown(m: Byte)
    ensures IsStandalone(m) <==> m in STANDALONE_MARKERS
    ensures IsFrame(m) <==> m in FRAME_MARKERS
  {
  }

  /**
   An image as the standard lays it out: start of image, segments and standalone markers, a frame
   header with one to 255 components of three bytes each, and anything after it.
   */
  lemma ConformingImageIsRead(items: seq<Item>, f: Frame, tail: seq<Byte>)
    requires forall i :: 0 <= i < |items| ==> MayPrecedeFrame(items[i])
    requires f.marker in FRAME_MARKERS && f.size.width <= 65535 && f.size.height <= 65535
    requires f.rest != [] && f.rest[0] >= 1 && |f.rest| == 1 + 3 * f.rest[0] as int
    ensures AllItems(items) && IsFrameHeader(f)
    ensures var image := [0xFF, 0xD8] + StreamBytes(items) + FrameBytes(f) + tail;
            IsJpeg(image) && Scan(image, 2) == Some(f.size)
  {
    forall i | 0 <= i < |items|
      ensures IsItem(items[i])
    {
      if !items[i].Stray? {
        MarkersAreKnown(items[i].marker);
      }
    }
    MarkersAreKnown(f.marker);
    ReadAfterStart(items, f, tail);
  }

  lemma ReadAfterStart(items: seq<Item>, f: Frame, tail: seq<Byte>)
    requires AllItems(items) && IsFrameHeader(f) && f.rest != []
    ensures var image := [0xFF, 0xD8] + StreamBytes(items) + FrameBytes(f) + tail;
            IsJpeg(image) && Scan(image, 2) == Some(f.size)
  {
    var soi: seq<Byte> := [0xFF, 0xD8];
    var image := soi + StreamBytes(items) + FrameBytes(f) + tail;
    HoldsInOrder(soi, StreamBytes(items), FrameBytes(f), tail);
    assert |FrameBytes(f)| == 9 + |f.rest|;
    StreamIsRead(image, 2, items, f);
  }
}
