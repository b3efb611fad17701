/** The JPEG marker scanner of scripts/update-clawtributors.ts: it walks the
    marker segments after the SOI marker until it meets a frame header (SOFn)
    and reads the picture's size from there.

    Markers, segments and frame headers are those of ITU-T T.81 (sections B.1.1
    and B.2.2, table B.1). Two further items, marked as such, are what the scanner
    alone steps over. It reads every file of the standard's kind without fill
    bytes; what it does with fill bytes is stated exactly, too. */
module Jpeg {
  import opened Wrappers

  type Byte = x: int | 0 <= x < 256

  datatype Dimensions = Dimensions(width: nat, height: nat)

  // ---- Markers ----

  /** Markers that stand alone: SOI, EOI, TEM and RSTm. */
  predicate StandsAlone(marker: Byte) {
    marker == 0xd8 || marker == 0xd9 || marker == 0x01 || 0xd0 <= marker <= 0xd7
  }

  /** The start-of-frame markers: C0..CF without DHT (C4), JPG (C8) and DAC (CC). */
  predicate StartsFrame(marker: Byte) {
    || 0xc0 <= marker <= 0xc3
    || 0xc5 <= marker <= 0xc7
    || 0xc9 <= marker <= 0xcb
    || 0xcd <= marker <= 0xcf
  }

  function Uint16(high: Byte, low: Byte): nat {
    256 * (high as int) + low
  }

  /** Two bytes, most significant first. */
  datatype Word = Word(high: Byte, low: Byte)
  {
    function Value(): nat {
      Uint16(high, low)
    }
  }

  // ---- Grammar ----

  /** The two values of a second byte that make no marker: FF 00 is a stuffed data byte, and FF FF
      starts with a fill byte. */
  predicate IsNoMarker(second: Byte) {
    second == 0x00 || second == 0xff
  }

  /** What may stand between SOI and the frame header. The first two kinds are the standard's. A stray
      byte, and the bytes after FF 00 or FF FF taken for a segment, are the scanner's own. */
  datatype Item =
    | Alone(marker: Byte)
    | Segment(marker: Byte, length: Word, parameters: seq<Byte>)
    | Stray(byte: Byte)
    | Misread(marker: Byte, length: Word, parameters: seq<Byte>)
  {
    predicate Standard() {
      Alone? || Segment?
    }

    /** The length field of a segment counts itself and the parameters. */
    predicate Valid() {
      match this
      case Alone(m) => StandsAlone(m)
      case Segment(m, length, ps) =>
        !IsNoMarker(m) && !StandsAlone(m) && !StartsFrame(m) && length.Value() == |ps| + 2
      case Stray(b) => b != 0xff
      case Misread(second, length, ps) => IsNoMarker(second) && length.Value() == |ps| + 2
    }

    function Bytes(): seq<Byte> {
      match this
      case Alone(m) => [0xff, m]
      case Segment(m, length, ps) => [0xff, m, length.high, length.low] + ps
      case Stray(b) => [b]
      case Misread(second, length, ps) => [0xff, second, length.high, length.low] + ps
    }
  }

  /** A frame header: length, sample precision, number of lines, samples per line, and the rest (in
      the standard: the component count and three bytes a component). */
  datatype Frame =
    Frame(marker: Byte, length: Word, precision: Byte, lines: Word, samples: Word, components: seq<Byte>)
  {
    predicate Valid() {
      StartsFrame(marker) && length.Value() == |components| + 7
    }

    function Bytes(): seq<Byte> {
      FrameStart() + components
    }

    function FrameStart(): seq<Byte> {
      [0xff, marker, length.high, length.low, precision, lines.high, lines.low, samples.high, samples.low]
    }

    function Size(): Dimensions {
      Dimensions(samples.Value(), lines.Value())
    }

    /** The standard's own frame headers name how many components follow. */
    predicate Standard() {
      |components| >= 1 && |components| == 1 + 3 * (components[0] as int)
    }
  }

  ghost predicate AllValid(items: seq<Item>) {
    forall i :: 0 <= i < |items| ==> items[i].Valid()
  }

  function AllBytes(items: seq<Item>): seq<Byte> {
    if items == [] then [] else items[0].Bytes() + AllBytes(items[1..])
  }

  /** `s` is a run of items, then a frame header, then anything. That the header and what follows it
      fill at least ten bytes is the scanner's own demand, the guard of its loop. */
  ghost predicate Parses(s: seq<Byte>, items: seq<Item>, frame: Frame, after: seq<Byte>) {
    && AllValid(items)
    && frame.Valid()
    && s == AllBytes(items) + (frame.Bytes() + after)
    && |frame.Bytes()| + |after| >= 10
  }

  // ---- Scanner ----

  /** What the scanner computes from the bytes that are left. */
  function Scan(s: seq<Byte>): Option<Dimensions> {
    if |s| < 10 then None
    else if s[0] != 0xff then Scan(s[1..])
    else if StandsAlone(s[1]) then Scan(s[2..])
    else
      var length := Uint16(s[2], s[3]);
      if length < 2 || 2 + length > |s| then None
      else if StartsFrame(s[1]) then
        if length < 7 then None else Some(Dimensions(Uint16(s[7], s[8]), Uint16(s[5], s[6])))
      else Scan(s[2 + length..])
  }

  function Found(buffer: seq<Byte>): Option<Dimensions> {
    if |buffer| < 2 then None else Scan(buffer[2..])
  }

  ghost function ScanFrom(buffer: seq<Byte>, offset: nat): Option<Dimensions> {
    if offset > |buffer| then None else Scan(buffer[offset..])
  }

  /** One turn of the loop, in terms of the offset. */
  lemma ScanFromStep(buffer: seq<Byte>, offset: nat)
    ensures offset + 9 >= |buffer| ==> ScanFrom(buffer, offset) == None
    ensures offset + 9 < |buffer| ==>
      ScanFrom(buffer, offset) ==
        if buffer[offset] != 0xff then ScanFrom(buffer, offset + 1)
        else if StandsAlone(buffer[offset + 1]) then ScanFrom(buffer, offset + 2)
        else
          var length := Uint16(buffer[offset + 2], buffer[offset + 3]);
          if length < 2 || offset + 2 + length > |buffer| then None
          else if !StartsFrame(buffer[offset + 1]) then ScanFrom(buffer, offset + 2 + length)
          else if length < 7 then None
          else Some(Dimensions(Uint16(buffer[offset + 7], buffer[offset + 8]),
                               Uint16(buffer[offset + 5], buffer[offset + 6])))
  {
    if offset + 9 < |buffer| {
      var s := buffer[offset..];
      assert s[1..] == buffer[offset + 1..] && s[2..] == buffer[offset + 2..];
      var length := Uint16(s[2], s[3]);
      assert offset + 2 + length <= |buffer| ==> s[2 + length..] == buffer[offset + 2 + length..];
    }
  }

  /** Every read is inside the buffer and the offset always advances. */
  method ReadJpegDimensions(buffer: array<Byte>) returns (dimensions: Option<Dimensions>)
    ensures dimensions == Found(buffer[..])
  {
    ghost var bytes := buffer[..];
    var offset := 2;
    while offset + 9 < buffer.Length
      invariant 2 <= offset && Found(bytes) == ScanFrom(bytes, offset)
      decreases buffer.Length - offset
    {
      ScanFromStep(bytes, offset);
      if buffer[offset] != 0xff {
        offset := offset + 1;
        continue;
      }
      var marker := buffer[offset + 1];
      offset := offset + 2;
      if marker == 0xd8 || marker == 0xd9 {
        continue;
      }
      if marker == 0x01 || 0xd0 <= marker <= 0xd7 {
        continue;
      }
      if offset + 2 > buffer.Length {
        return None;
      }
      var length := Uint16(buffer[offset], buffer[offset + 1]);
      if length < 2 || offset + length > buffer.Length {
        return None;
      }
      if StartsFrame(marker) {
        if length < 7 {
          return None;
        }
        var height := Uint16(buffer[offset + 3], buffer[offset + 4]);
        var width := Uint16(buffer[offset + 5], buffer[offset + 6]);
        return Some(Dimensions(width, height));
      }
      offset := offset + length;
    }
    ScanFromStep(bytes, offset);
    return None;
  }

  // ---- The scanner's correctness ----

  lemma ScanPastSegment(s: seq<Byte>, n: nat)
    requires |s| >= 10 && s[0] == 0xff && !StandsAlone(s[1]) && !StartsFrame(s[1])
    requires 2 <= n == Uint16(s[2], s[3]) && 2 + n <= |s|
    ensures Scan(s) == Scan(s[2 + n..])
  {
  }

  lemma ScanPastOther(s: seq<Byte>)
    requires |s| >= 10 && (s[0] != 0xff || StandsAlone(s[1]))
    ensures Scan(s) == Scan(if s[0] != 0xff then s[1..] else s[2..])
  {
  }

  lemma ItemInFront(item: Item, rest: seq<Byte>)
    ensures var s := item.Bytes() + rest; s[0] == item.Bytes()[0] && s[|item.Bytes()|..] == rest
    ensures var s := item.Bytes() + rest; !item.Stray? ==> s[1] == item.marker
    ensures var s := item.Bytes() + rest;
            item.Segment? || item.Misread? ==> s[2] == item.length.high && s[3] == item.length.low
  {
  }

  lemma ScanSkipsItem(item: Item, rest: seq<Byte>)
    requires item.Valid() && |item.Bytes()| + |rest| >= 10
    ensures Scan(item.Bytes() + rest) == Scan(rest)
  {
    ItemInFront(item, rest);
    match item
    case Segment(_, length, _) => ScanPastSegment(item.Bytes() + rest, length.Value());
    case Alone(_) => ScanPastOther(item.Bytes() + rest);
    case Stray(_) => ScanPastOther(item.Bytes() + rest);
    case Misread(_, length, _) => ScanPastSegment(item.Bytes() + rest, length.Value());
  }

  lemma {:induction false} ScanSkipsItems(items: seq<Item>, rest: seq<Byte>)
    requires AllValid(items)
    requires |rest| >= 9
    ensures Scan(AllBytes(items) + rest) == Scan(rest)
  {
    if items == [] {
      assert AllBytes(items) + rest == rest;
    } else {
      var later := AllBytes(items[1..]) + rest;
      assert AllBytes(items) + rest == items[0].Bytes() + later;
      ScanSkipsItem(items[0], later);
      ScanSkipsItems(items[1..], rest);
    }
  }

  lemma BytesOneMore(item: Item, items: seq<Item>, rest: seq<Byte>)
    ensures AllBytes([item] + items) + rest == item.Bytes() + (AllBytes(items) + rest)
  {
    assert ([item] + items)[1..] == items;
  }

  lemma ScanAtFrame(s: seq<Byte>)
    requires |s| >= 10 && s[0] == 0xff && StartsFrame(s[1])
    requires 7 <= Uint16(s[2], s[3]) <= |s| - 2
    ensures Scan(s) == Some(Dimensions(Uint16(s[7], s[8]), Uint16(s[5], s[6])))
  {
  }

  lemma FrameFields(frame: Frame, s: seq<Byte>)
    requires frame.Valid() && |s| >= 9 && s[..9] == frame.FrameStart()
    ensures s[0] == 0xff && s[1] == frame.marker
    ensures Uint16(s[2], s[3]) == |frame.components| + 7
    ensures Dimensions(Uint16(s[7], s[8]), Uint16(s[5], s[6])) == frame.Size()
  {
    assert forall i | 0 <= i < 9 :: s[i] == frame.FrameStart()[i];
  }

  lemma ScanReadsFrame(s: seq<Byte>, frame: Frame)
    requires frame.Valid()
    requires |s| >= 10 && s[..9] == frame.FrameStart() && |s| >= 9 + |frame.components|
    ensures Scan(s) == Some(frame.Size())
  {
    FrameFields(frame, s);
    ScanAtFrame(s);
  }

  /** Whatever the segments before it hold, the frame header is the one read. */
  lemma ScanFindsFrame(s: seq<Byte>, items: seq<Item>, frame: Frame, after: seq<Byte>)
    requires Parses(s, items, frame, after)
    ensures Scan(s) == Some(frame.Size())
  {
    var rest := frame.Bytes() + after;
    assert rest[..9] == frame.FrameStart();
    ScanReadsFrame(rest, frame);
    ScanSkipsItems(items, rest);
  }

  /** SOI, items, and anything. */
  function SoiFile(items: seq<Item>, rest: seq<Byte>): seq<Byte> {
    [0xff, 0xd8] + (AllBytes(items) + rest)
  }

  /** A file as the standard lays it out: SOI, segments, the frame header, the rest. */
  function FileBytes(items: seq<Item>, frame: Frame, after: seq<Byte>): seq<Byte> {
    SoiFile(items, frame.Bytes() + after)
  }

  lemma AfterSoi(rest: seq<Byte>)
    ensures Found([0xff, 0xd8] + rest) == Scan(rest)
  {
    assert ([0xff, 0xd8] + rest)[2..] == rest;
  }

  /** On the standard's own frame headers nothing further is needed: the header
      alone is long enough for the loop guard. */
  lemma StandardFileIsRead(items: seq<Item>, frame: Frame, after: seq<Byte>)
    requires AllValid(items) && frame.Valid() && frame.Standard()
    ensures Found(FileBytes(items, frame, after)) == Some(frame.Size())
  {
    var rest := AllBytes(items) + (frame.Bytes() + after);
    AfterSoi(rest);
    ScanFindsFrame(rest, items, frame, after);
  }

  /** The loop guard asks for ten bytes: a nine-byte frame header (length 7, no
      components) at the very end is not read, and only that one is lost. */
  lemma LostIffBareHeaderAtEnd(items: seq<Item>, frame: Frame, after: seq<Byte>)
    requires AllValid(items) && frame.Valid()
    ensures Found(FileBytes(items, frame, after)) == Some(frame.Size()) <==> frame.components != [] || after != []
  {
    var rest := frame.Bytes() + after;
    AfterSoi(AllBytes(items) + rest);
    if frame.components != [] || after != [] {
      ScanFindsFrame(AllBytes(items) + rest, items, frame, after);
    } else {
      assert |rest| == 9;
      ScanSkipsItems(items, rest);
    }
  }

  /** Nothing is found in a file that has no frame header. */
  lemma {:induction false} NoHeaderNothingFound(items: seq<Item>)
    requires AllValid(items)
    ensures Scan(AllBytes(items)) == None
  {
    if items != [] {
      NoHeaderNothingFound(items[1..]);
      if |AllBytes(items)| >= 10 {
        ScanSkipsItem(items[0], AllBytes(items[1..]));
      }
    }
  }

  /** A whole file, eleven bytes long, whose header is not read; one more byte and it is. */
  lemma BareHeaderIsMissed()
    ensures var file := [0xff, 0xd8, 0xff, 0xc0, 0, 7, 8, 0, 3, 0, 4];
            Found(file) == None && Found(file + [0]) == Some(Dimensions(4, 3))
  {
    var frame := Frame(0xc0, Word(0, 7), 8, Word(0, 3), Word(0, 4), []);
    LostIffBareHeaderAtEnd([], frame, []);
    LostIffBareHeaderAtEnd([], frame, [0]);
    assert FileBytes([], frame, []) == [0xff, 0xd8, 0xff, 0xc0, 0, 7, 8, 0, 3, 0, 4];
    assert FileBytes([], frame, [0]) == [0xff, 0xd8, 0xff, 0xc0, 0, 7, 8, 0, 3, 0, 4] + [0];
    assert |([0xff, 0xd8, 0xff, 0xc0, 0, 7, 8, 0, 3, 0, 4])[2..]| == 9;
  }

  // ---- Fill bytes ----

  /** The standard lets any number of FF bytes stand before a marker. */
  function Fill(n: nat): seq<Byte> {
    seq(n, i => 0xff)
  }

  lemma ScanAtFill(s: seq<Byte>)
    requires |s| >= 10 && s[0] == 0xff && s[1] == 0xff
    ensures var next := 2 + Uint16(s[2], s[3]);
            Scan(s) == if next < 4 || next > |s| then None else Scan(s[next..])
  {
  }

  /** Wherever a marker with fill bytes is due, the scanner takes the two bytes behind FF FF for a length:
      it finds a size exactly when that length is in the file and a header of that size stands behind. */
  lemma FillFoundIff(items: seq<Item>, s: seq<Byte>, size: Dimensions)
    requires AllValid(items) && |s| >= 10 && s[0] == 0xff && s[1] == 0xff
    ensures var next := 2 + Uint16(s[2], s[3]);
            Found(SoiFile(items, s)) == Some(size) <==> 4 <= next <= |s| && HoldsFrame(s[next..], size)
  {
    AfterSoi(AllBytes(items) + s);
    ScanSkipsItems(items, s);
    ScanAtFill(s);
    var next := 2 + Uint16(s[2], s[3]);
    if next <= |s| {
      ScanFindsSome(s[next..], size);
    }
  }

  /** With one fill byte or more before it, a frame header is never read itself: the length taken is at
      least 49152, which skips the header. */
  lemma FillHidesHeader(n: nat, frame: Frame, after: seq<Byte>)
    requires n >= 1 && frame.Valid()
    ensures var s := Fill(n) + frame.Bytes() + after;
            |s| >= 10 && s[0] == 0xff && s[1] == 0xff && Uint16(s[2], s[3]) >= 0xc000
  {
    var s := Fill(n) + frame.Bytes() + after;
    assert s == Fill(n) + (frame.FrameStart() + frame.components + after);
    assert n == 1 ==> s[1] == 0xff && s[2] == frame.marker;
    assert n >= 2 ==> s[1] == 0xff && s[2] == 0xff;
  }

  /** So a file with a standard header is not read if one fill byte stands before that header and fewer
      than 49154 bytes are left. */
  lemma FilledShortFileIsLost(items: seq<Item>, n: nat, frame: Frame, after: seq<Byte>)
    requires AllValid(items) && frame.Valid() && frame.Standard() && n >= 1
    requires n + |frame.Bytes()| + |after| < 0xc002
    ensures Found(SoiFile(items, Fill(n) + frame.Bytes() + after)) == None
  {
    var s := Fill(n) + frame.Bytes() + after;
    FillHidesHeader(n, frame, after);
    TooShortBehindFill(items, s);
  }

  lemma TooShortBehindFill(items: seq<Item>, s: seq<Byte>)
    requires AllValid(items) && 10 <= |s| < 2 + Uint16(s[2], s[3]) && s[0] == 0xff && s[1] == 0xff
    ensures Found(SoiFile(items, s)) == None
  {
    AfterSoi(AllBytes(items) + s);
    ScanSkipsItems(items, s);
    ScanAtFill(s);
  }

  // ---- Only files are read ----

  /** The frame header at the front of `s`. */
  function FrameAt(s: seq<Byte>): (frame: Frame)
    requires |s| >= 10 && s[0] == 0xff && StartsFrame(s[1])
    requires 7 <= Uint16(s[2], s[3]) <= |s| - 2
    ensures frame.Valid() && frame.Bytes() == s[..2 + Uint16(s[2], s[3])]
    ensures frame.Size() == Dimensions(Uint16(s[7], s[8]), Uint16(s[5], s[6]))
  {
    Frame(s[1], Word(s[2], s[3]), s[4], Word(s[5], s[6]), Word(s[7], s[8]), s[9..2 + Uint16(s[2], s[3])])
  }

  /** The segment at the front of `s`, or what the scanner takes for one. */
  function SegmentAt(s: seq<Byte>): (item: Item)
    requires |s| >= 10 && s[0] == 0xff && !StartsFrame(s[1]) && !StandsAlone(s[1])
    requires 2 <= Uint16(s[2], s[3]) <= |s| - 2
    ensures item.Valid() && item.Bytes() == s[..2 + Uint16(s[2], s[3])]
    ensures item.Standard() <==> !IsNoMarker(s[1])
  {
    var length, parameters := Word(s[2], s[3]), s[4..2 + Uint16(s[2], s[3])];
    if IsNoMarker(s[1]) then Misread(s[1], length, parameters) else Segment(s[1], length, parameters)
  }

  /** `s` parses, with a frame header of this size. */
  ghost predicate HoldsFrame(s: seq<Byte>, size: Dimensions) {
    exists items: seq<Item>, frame: Frame, after: seq<Byte> ::
      Parses(s, items, frame, after) && frame.Size() == size
  }

  lemma HoldsOneMore(item: Item, rest: seq<Byte>, size: Dimensions)
    requires item.Valid() && HoldsFrame(rest, size)
    ensures HoldsFrame(item.Bytes() + rest, size)
  {
    var items: seq<Item>, frame: Frame, after: seq<Byte> :|
      Parses(rest, items, frame, after) && frame.Size() == size;
    BytesOneMore(item, items, frame.Bytes() + after);
    assert Parses(item.Bytes() + rest, [item] + items, frame, after);
  }

  lemma HoldsFirst(frame: Frame, after: seq<Byte>)
    requires frame.Valid() && |frame.Bytes()| + |after| >= 10
    ensures HoldsFrame(frame.Bytes() + after, frame.Size())
  {
    assert AllBytes([]) + (frame.Bytes() + after) == frame.Bytes() + after;
    assert Parses(frame.Bytes() + after, [], frame, after);
  }

  /** Nothing is found without a frame header behind a run of whole items. */
  lemma {:induction false} FrameWasThere(s: seq<Byte>)
    requires Scan(s).Some?
    ensures HoldsFrame(s, Scan(s).value)
    decreases |s|
  {
    if s[0] == 0xff && !StandsAlone(s[1]) {
      var n := 2 + Uint16(s[2], s[3]);
      assert s == s[..n] + s[n..];
      if StartsFrame(s[1]) {
        HoldsFirst(FrameAt(s), s[n..]);
      } else {
        FrameWasThere(s[n..]);
        HoldsOneMore(SegmentAt(s), s[n..], Scan(s).value);
      }
    } else {
      var item := if s[0] == 0xff then Alone(s[1]) else Stray(s[0]);
      var rest := if s[0] == 0xff then s[2..] else s[1..];
      assert s == item.Bytes() + rest;
      FrameWasThere(rest);
      HoldsOneMore(item, rest, Scan(s).value);
    }
  }

  lemma ScanFindsSome(s: seq<Byte>, size: Dimensions)
    ensures HoldsFrame(s, size) <==> Scan(s) == Some(size)
  {
    if Scan(s) == Some(size) {
      FrameWasThere(s);
    }
    if HoldsFrame(s, size) {
      var items: seq<Item>, frame: Frame, after: seq<Byte> :|
        Parses(s, items, frame, after) && frame.Size() == size;
      ScanFindsFrame(s, items, frame, after);
    }
  }

  /** The scanner answers a size exactly when, behind two bytes, the file is a run of items and a frame
      header of that size: for every byte string. */
  lemma FoundIff(buffer: seq<Byte>, size: Dimensions)
    ensures Found(buffer) == Some(size) <==> |buffer| >= 2 && HoldsFrame(buffer[2..], size)
  {
    if |buffer| >= 2 {
      ScanFindsSome(buffer[2..], size);
    }
  }
}
