/** The walk over a JPEG file's segments that finds the picture's dimensions
    (ITU-T T.81, sections B.1.1 and B.2.2). */
module JpegWalker {
  import opened Options

  type byte = i: int | 0 <= i < 256
  type word = i: int | 0 <= i < 0x1_0000

  datatype Dimensions = Dimensions(height: word, width: word)

  function U16(hi: byte, lo: byte): word {
    256 * hi + lo
  }

  function Big(n: word): (s: seq<byte>)
    ensures |s| == 2 && U16(s[0], s[1]) == n
  {
    [n / 256, n % 256]
  }

  /** TEM, the restart markers, SOI and EOI stand without a length. */
  predicate IsAlone(marker: byte) {
    marker == 0x01 || 0xd0 <= marker <= 0xd9
  }

  /** The start-of-frame markers. */
  predicate IsFrame(marker: byte) {
    || 0xc0 <= marker <= 0xc3
    || 0xc5 <= marker <= 0xc7
    || 0xc9 <= marker <= 0xcb
    || 0xcd <= marker <= 0xcf
  }

  /** What the walk makes of the bytes from some marker on. */
  function Walk(t: seq<byte>): Option<Dimensions> {
    if |t| < 10 then None
    else if t[0] != 0xff then Walk(t[1..])
    else if IsAlone(t[1]) then Walk(t[2..])
    else
      var length := U16(t[2], t[3]);
      if length < 2 || 2 + length > |t| then None
      else if IsFrame(t[1]) then
        if length < 7 then None else Some(Dimensions(U16(t[5], t[6]), U16(t[7], t[8])))
      else Walk(t[2 + length..])
  }

  method ReadJpegDimensions(buffer: seq<byte>) returns (r: Option<Dimensions>)
    ensures |buffer| < 2 ==> r == None
    ensures |buffer| >= 2 ==> r == Walk(buffer[2..])
  {
    var offset := 2;
    while offset + 9 < |buffer|
      invariant 2 <= offset
      invariant |buffer| >= 2 ==> offset <= |buffer| && Walk(buffer[offset..]) == Walk(buffer[2..])
    {
      ghost var t := buffer[offset..];
      assert |t| >= 10 && t[0] == buffer[offset] && t[1] == buffer[offset + 1];
      if buffer[offset] != 0xff {
        assert t[1..] == buffer[offset + 1..];
        offset := offset + 1;
        continue;
      }
      var marker := buffer[offset + 1];
      offset := offset + 2;
      assert t[2..] == buffer[offset..];
      if marker == 0xd8 || marker == 0xd9 {
        continue;
      }
      if marker == 0x01 || (marker >= 0xd0 && marker <= 0xd7) {
        continue;
      }
      if offset + 2 > |buffer| {
        return None;
      }
      var length := U16(buffer[offset], buffer[offset + 1]);
      if length < 2 || offset + length > |buffer| {
        return None;
      }
      if (marker >= 0xc0 && marker <= 0xc3) || (marker >= 0xc5 && marker <= 0xc7)
         || (marker >= 0xc9 && marker <= 0xcb) || (marker >= 0xcd && marker <= 0xcf)
      {
        if length < 7 {
          return None;
        }
        return Some(Dimensions(U16(buffer[offset + 3], buffer[offset + 4]),
                               U16(buffer[offset + 5], buffer[offset + 6])));
      }
      assert t[2 + length..] == buffer[offset + length..];
      offset := offset + length;
    }
    return None;
  }

  // ----- what the walk recognises

  /** What may precede the frame header: bytes between segments, markers that stand alone,
      and segments with a length. */
  datatype Item = Stray(value: byte) | Alone(marker: byte) | Segment(marker: byte, payload: seq<byte>)

  predicate ItemOk(item: Item) {
    match item
    case Stray(b) => b != 0xff
    case Alone(m) => IsAlone(m)
    case Segment(m, payload) => !IsAlone(m) && !IsFrame(m) && |payload| + 2 < 0x1_0000
  }

  predicate ItemsOk(items: seq<Item>) {
    forall i :: 0 <= i < |items| ==> ItemOk(items[i])
  }

  /** A frame header: the parameters up to the number of samples per line, and the rest. */
  datatype Frame = Frame(marker: byte, precision: byte, height: word, width: word, rest: seq<byte>)

  predicate FrameOk(f: Frame) {
    IsFrame(f.marker) && |f.rest| + 7 < 0x1_0000
  }

  function ItemBytes(item: Item): seq<byte>
    requires ItemOk(item)
  {
    match item
    case Stray(b) => [b]
    case Alone(m) => [0xff, m]
    case Segment(m, payload) => [0xff, m] + Big(|payload| + 2) + payload
  }

  function ItemsBytes(items: seq<Item>): seq<byte>
    requires ItemsOk(items)
  {
    if items == [] then [] else ItemBytes(items[0]) + ItemsBytes(items[1..])
  }

  function FrameBytes(f: Frame): seq<byte>
    requires FrameOk(f)
  {
    [0xff, f.marker] + Big(|f.rest| + 7) + [f.precision] + Big(f.height) + Big(f.width) + f.rest
  }

  /** The bytes are items, then a frame header of these dimensions, then anything; the header
      is at least eight bytes long after its marker, or is not the end of the file. */
  ghost predicate HasHeader(t: seq<byte>, d: Dimensions) {
    exists items, f, tail :: Composed(t, items, f, tail) && d == Dimensions(f.height, f.width)
  }

  predicate Composed(t: seq<byte>, items: seq<Item>, f: Frame, tail: seq<byte>) {
    && ItemsOk(items) && FrameOk(f)
    && |f.rest| + |tail| >= 1
    && t == ItemsBytes(items) + FrameBytes(f) + tail
  }

  lemma {:induction false} WalkItem(item: Item, t: seq<byte>)
    requires ItemOk(item)
    ensures Walk(ItemBytes(item) + t) == Walk(t)
  {
    var b := ItemBytes(item);
    var s := b + t;
    assert s[|b|..] == t;
  }

  lemma {:induction false} WalkItems(items: seq<Item>, t: seq<byte>)
    requires ItemsOk(items)
    ensures Walk(ItemsBytes(items) + t) == Walk(t)
  {
    if items == [] {
      assert ItemsBytes(items) + t == t;
    } else {
      var more := ItemsBytes(items[1..]) + t;
      WalkItems(items[1..], t);
      WalkItem(items[0], more);
      assert ItemsBytes(items) + t == ItemBytes(items[0]) + more;
    }
  }

  lemma {:induction false} WalkFrame(f: Frame, tail: seq<byte>)
    requires FrameOk(f) && |f.rest| + |tail| >= 1
    ensures Walk(FrameBytes(f) + tail) == Some(Dimensions(f.height, f.width))
  {
    var s := FrameBytes(f) + tail;
    assert s[2] == Big(|f.rest| + 7)[0] && s[3] == Big(|f.rest| + 7)[1];
    assert s[5] == Big(f.height)[0] && s[6] == Big(f.height)[1];
    assert s[7] == Big(f.width)[0] && s[8] == Big(f.width)[1];
  }

  lemma {:induction false} FindsHeader(t: seq<byte>, items: seq<Item>, f: Frame, tail: seq<byte>)
    requires Composed(t, items, f, tail)
    ensures Walk(t) == Some(Dimensions(f.height, f.width))
  {
    WalkItems(items, FrameBytes(f) + tail);
    WalkFrame(f, tail);
    assert t == ItemsBytes(items) + (FrameBytes(f) + tail);
  }

  lemma {:induction false} BigOf(hi: byte, lo: byte)
    ensures Big(U16(hi, lo)) == [hi, lo]
  {
  }

  lemma {:induction false} FrameAt(t: seq<byte>)
    requires |t| >= 10 && t[0] == 0xff && IsFrame(t[1])
    requires 7 <= U16(t[2], t[3]) && 2 + U16(t[2], t[3]) <= |t|
    ensures HasHeader(t, Dimensions(U16(t[5], t[6]), U16(t[7], t[8])))
  {
    var n := U16(t[2], t[3]);
    var f := Frame(t[1], t[4], U16(t[5], t[6]), U16(t[7], t[8]), t[9..2 + n]);
    BigOf(t[2], t[3]);
    BigOf(t[5], t[6]);
    BigOf(t[7], t[8]);
    assert FrameBytes(f) == t[..2 + n];
    assert Composed(t, [], f, t[2 + n..]);
  }

  lemma {:induction false} ItemBefore(item: Item, t: seq<byte>, d: Dimensions)
    requires ItemOk(item) && HasHeader(t, d)
    ensures HasHeader(ItemBytes(item) + t, d)
  {
    var items, f, tail :| Composed(t, items, f, tail) && d == Dimensions(f.height, f.width);
    ItemsCons(item, items);
    Regroup(ItemBytes(item), ItemsBytes(items), FrameBytes(f), tail);
    assert Composed(ItemBytes(item) + t, [item] + items, f, tail);
  }

  lemma {:induction false} Regroup(a: seq<byte>, b: seq<byte>, c: seq<byte>, d: seq<byte>)
    ensures a + (b + c + d) == (a + b) + c + d
  {
  }

  lemma {:induction false} ItemsCons(item: Item, items: seq<Item>)
    requires ItemOk(item) && ItemsOk(items)
    ensures ItemsOk([item] + items)
    ensures ItemsBytes([item] + items) == ItemBytes(item) + ItemsBytes(items)
  {
    assert ([item] + items)[1..] == items;
  }

  lemma {:induction false} SegmentAt(t: seq<byte>)
    requires |t| >= 4 && t[0] == 0xff && !IsFrame(t[1]) && !IsAlone(t[1])
    requires 2 <= U16(t[2], t[3]) && 2 + U16(t[2], t[3]) <= |t|
    ensures var n := U16(t[2], t[3]);
      ItemOk(Segment(t[1], t[4..2 + n])) && t == ItemBytes(Segment(t[1], t[4..2 + n])) + t[2 + n..]
  {
    var n := U16(t[2], t[3]);
    BigOf(t[2], t[3]);
    assert ItemBytes(Segment(t[1], t[4..2 + n])) == t[..2 + n];
  }

  lemma {:induction false} FoundIsHeader(t: seq<byte>)
    requires Walk(t).Some?
    ensures HasHeader(t, Walk(t).value)
    decreases |t|
  {
    if t[0] != 0xff {
      FoundIsHeader(t[1..]);
      ItemBefore(Stray(t[0]), t[1..], Walk(t).value);
      assert t == ItemBytes(Stray(t[0])) + t[1..];
    } else if IsAlone(t[1]) {
      FoundIsHeader(t[2..]);
      ItemBefore(Alone(t[1]), t[2..], Walk(t).value);
      assert t == ItemBytes(Alone(t[1])) + t[2..];
    } else if IsFrame(t[1]) {
      FrameAt(t);
    } else {
      var n := U16(t[2], t[3]);
      SegmentAt(t);
      FoundIsHeader(t[2 + n..]);
      ItemBefore(Segment(t[1], t[4..2 + n]), t[2 + n..], Walk(t).value);
    }
  }

  /** On any bytes: dimensions are returned exactly when the file, past its first two bytes,
      is made up of items and a frame header, and they are that header's. */
  lemma {:induction false} WalkFindsExactlyTheHeader(t: seq<byte>, d: Dimensions)
    ensures Walk(t) == Some(d) <==> HasHeader(t, d)
  {
    if Walk(t) == Some(d) {
      FoundIsHeader(t);
    }
    if HasHeader(t, d) {
      var items, f, tail :| Composed(t, items, f, tail) && d == Dimensions(f.height, f.width);
      FindsHeader(t, items, f, tail);
    }
  }

  // ----- the markers

  /** Table B.1 of T.81: all of SOF0 to SOF15 but DHT, JPG and DAC are frame headers, and TEM, RST0 to RST7,
      SOI and EOI are the markers without a length that occur among the others. */
  lemma {:induction false} MarkerTable(marker: byte)
    ensures IsFrame(marker) <==> marker / 16 == 0xc && marker != 0xc4 && marker != 0xc8 && marker != 0xcc
    ensures IsAlone(marker) <==>
      marker in {0x01, 0xd0, 0xd1, 0xd2, 0xd3, 0xd4, 0xd5, 0xd6, 0xd7, 0xd8, 0xd9}
  {
  }

  // ----- fill bytes

  /** T.81 lets fill bytes precede any marker (section B.1.1.2); the walk does not. One fill
      byte before a marker of the ranges the standard assigns lengths to is taken for a
      segment of at least 0xc000 bytes, so in any smaller file the header is not found. */
  lemma {:induction false} FillByteHidesHeader(items: seq<Item>, marker: byte, tail: seq<byte>)
    requires ItemsOk(items) && marker >= 0xc0
    requires |ItemsBytes(items)| + 3 + |tail| < 0xc000
    ensures Walk(ItemsBytes(items) + [0xff, 0xff, marker] + tail) == None
  {
    var t := [0xff, 0xff, marker] + tail;
    var s := ItemsBytes(items) + t;
    assert s == ItemsBytes(items) + [0xff, 0xff, marker] + tail;
    WalkItems(items, t);
    if |t| >= 10 {
      assert U16(t[2], t[3]) >= 0xc000;
    }
  }
}
