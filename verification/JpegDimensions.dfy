// Reading the frame dimensions of a JPEG stream, against the marker syntax of ITU-T T.81, Annex B.
module JpegDimensions {
  import opened Wrappers

  type Byte = b: int | 0 <= b < 256

  datatype Dimensions = Dimensions(width: nat, height: nat)

  function U16(hi: Byte, lo: Byte): nat {
    hi * 256 + lo
  }

  /** Markers that stand alone: SOI, EOI, TEM and the restart markers. */
  predicate Standalone(marker: Byte) {
    marker == 0xd8 || marker == 0xd9 || marker == 0x01 || 0xd0 <= marker <= 0xd7
  }

  /** Start-of-frame markers: all of C0 to CF except DHT, JPG and DAC. */
  predicate StartOfFrame(marker: Byte) {
    0xc0 <= marker <= 0xc3 || 0xc5 <= marker <= 0xc7 || 0xc9 <= marker <= 0xcb || 0xcd <= marker <= 0xcf
  }

  /** The walk over marker segments from an offset. */
  function Walk(buffer: seq<Byte>, offset: nat): Option<Dimensions>
    decreases |buffer| - offset
  {
    if offset + 9 >= |buffer| then None
    else if buffer[offset] != 0xff then Walk(buffer, offset + 1)
    else
      var marker, at := buffer[offset + 1], offset + 2;
      if Standalone(marker) then Walk(buffer, at)
      else
        var length := U16(buffer[at], buffer[at + 1]);
        if length < 2 || at + length > |buffer| then None
        else if !StartOfFrame(marker) then Walk(buffer, at + length)
        else if length < 7 then None
        else Some(Dimensions(U16(buffer[at + 5], buffer[at + 6]), U16(buffer[at + 3], buffer[at + 4])))
  }

  method ReadJpegDimensions(buffer: seq<Byte>) returns (r: Option<Dimensions>)
    ensures r == Walk(buffer, 2)
  {
    var offset := 2;
    while offset + 9 < |buffer|
      invariant Walk(buffer, offset) == Walk(buffer, 2)
      decreases |buffer| - offset
    {
      if buffer[offset] != 0xff {
        offset := offset + 1;
        continue;
      }
      var marker := buffer[offset + 1];
      offset := offset + 2;
      if marker == 0xd8 || marker == 0xd9 {
        continue;
      }
      if marker == 0x01 || (marker >= 0xd0 && marker <= 0xd7) {
        continue;
      }
      var length := U16(buffer[offset], buffer[offset + 1]);
      if length < 2 || offset + length > |buffer| {
        return None;
      }
      if StartOfFrame(marker) {
        if length < 7 {
          return None;
        }
        var height := U16(buffer[offset + 3], buffer[offset + 4]);
        var width := U16(buffer[offset + 5], buffer[offset + 6]);
        return Some(Dimensions(width, height));
      }
      offset := offset + length;
    }
    return None;
  }

  // ---- Streams as the walk sees them ----

  // The markers are those of Table B.1: TEM is 01; SOF0 to SOF15 are C0 to CF without DHT (C4), JPG (C8) and
  // DAC (CC); RST0 to RST7, SOI and EOI are D0 to D9.

  datatype Piece =
    | Junk(byte: Byte)                               // skipped: not the start of a marker
    | Marker(marker: Byte)                           // a marker that stands alone
    | Segment(marker: Byte, payload: seq<Byte>)      // a marker, its length, and its parameters

  predicate ValidPiece(p: Piece) {
    match p
    case Junk(byte) => byte != 0xff
    case Marker(marker) => marker == 0x01 || 0xd0 <= marker <= 0xd9
    case Segment(marker, payload) =>
      && marker != 0x01 && !(0xd0 <= marker <= 0xd9)
      && (0xc0 <= marker <= 0xcf ==> marker in {0xc4, 0xc8, 0xcc}) && |payload| + 2 < 0x1_0000
  }

  function Hi(n: nat): Byte
    requires n < 0x1_0000
  {
    n / 256
  }

  function Lo(n: nat): Byte
    requires n < 0x1_0000
  {
    n % 256
  }

  function EncodePiece(p: Piece): seq<Byte>
    requires ValidPiece(p)
  {
    match p
    case Junk(byte) => [byte]
    case Marker(marker) => [0xff, marker]
    case Segment(marker, payload) => [0xff, marker, Hi(|payload| + 2), Lo(|payload| + 2)] + payload
  }

  function Encode(pieces: seq<Piece>): seq<Byte>
    requires forall p <- pieces :: ValidPiece(p)
  {
    if pieces == [] then [] else EncodePiece(pieces[0]) + Encode(pieces[1..])
  }

  /** The first nine bytes of a frame header: marker, length, precision, lines, samples per line. */
  datatype Frame = Frame(marker: Byte, length: nat, precision: Byte, height: nat, width: nat)

  predicate ValidFrame(f: Frame) {
    && 0xc0 <= f.marker <= 0xcf && f.marker !in {0xc4, 0xc8, 0xcc}
    && 7 <= f.length < 0x1_0000 && f.height < 0x1_0000 && f.width < 0x1_0000
  }

  function EncodeFrame(f: Frame): (r: seq<Byte>)
    requires ValidFrame(f)
    ensures |r| == 9
  {
    [0xff, f.marker, Hi(f.length), Lo(f.length), f.precision, Hi(f.height), Lo(f.height), Hi(f.width), Lo(f.width)]
  }

  /** Pieces, then a frame header whose parameters fit in what follows. */
  ghost predicate Framed(tail: seq<Byte>, pieces: seq<Piece>, f: Frame, rest: seq<Byte>) {
    && (forall p <- pieces :: ValidPiece(p)) && ValidFrame(f)
    && tail == Encode(pieces) + EncodeFrame(f) + rest
    && rest != [] && f.length <= 7 + |rest|
  }

  lemma BytesOf(n: nat)
    requires n < 0x1_0000
    ensures U16(Hi(n), Lo(n)) == n
  {
  }

  lemma NumberOf(hi: Byte, lo: Byte)
    ensures U16(hi, lo) < 0x1_0000 && Hi(U16(hi, lo)) == hi && Lo(U16(hi, lo)) == lo
  {
  }

  /** The bytes stand in the buffer from the offset on. */
  ghost predicate StandsAt(buffer: seq<Byte>, offset: nat, bytes: seq<Byte>) {
    offset + |bytes| <= |buffer| && forall i :: 0 <= i < |bytes| ==> buffer[offset + i] == bytes[i]
  }

  lemma TailStands(buffer: seq<Byte>, offset: nat, a: seq<Byte>, b: seq<Byte>)
    requires offset <= |buffer| && buffer[offset..] == a + b
    ensures StandsAt(buffer, offset, a) && buffer[offset + |a|..] == b
  {
    forall i | 0 <= i < |a| ensures buffer[offset + i] == a[i] {
      assert buffer[offset..][i] == (a + b)[i];
    }
  }

  lemma WalkPastPiece(buffer: seq<Byte>, offset: nat, p: Piece)
    requires ValidPiece(p) && StandsAt(buffer, offset, EncodePiece(p))
    ensures Walk(buffer, offset) == Walk(buffer, offset + |EncodePiece(p)|)
  {
    var bytes := EncodePiece(p);
    assert buffer[offset + 0] == bytes[0];
    if !p.Junk? {
      assert buffer[offset + 1] == bytes[1];
    }
    if p.Segment? {
      assert buffer[offset + 2] == bytes[2] && buffer[offset + 3] == bytes[3];
      BytesOf(|p.payload| + 2);
      hide U16, Hi, Lo;
    }
  }

  lemma {:induction false} WalkReadsFrame(buffer: seq<Byte>, offset: nat, f: Frame)
    requires ValidFrame(f) && StandsAt(buffer, offset, EncodeFrame(f))
    requires offset + 9 < |buffer| && offset + 2 + f.length <= |buffer|
    ensures Walk(buffer, offset) == Some(Dimensions(f.width, f.height))
  {
    var bytes := EncodeFrame(f);
    assert buffer[offset + 0] == bytes[0] && buffer[offset + 1] == bytes[1] && buffer[offset + 2] == bytes[2];
    assert buffer[offset + 3] == bytes[3] && buffer[offset + 5] == bytes[5] && buffer[offset + 6] == bytes[6];
    assert buffer[offset + 7] == bytes[7] && buffer[offset + 8] == bytes[8];
    BytesOf(f.length);
    BytesOf(f.height);
    BytesOf(f.width);
    hide U16, Hi, Lo, StandsAt;
  }

  /** Any pieces are passed, whatever follows them. */
  lemma {:induction false} WalkPastPieces(buffer: seq<Byte>, offset: nat, pieces: seq<Piece>, tail: seq<Byte>)
    requires offset <= |buffer| && forall p <- pieces :: ValidPiece(p)
    requires buffer[offset..] == Encode(pieces) + tail
    ensures offset + |Encode(pieces)| <= |buffer| && buffer[offset + |Encode(pieces)|..] == tail
    ensures Walk(buffer, offset) == Walk(buffer, offset + |Encode(pieces)|)
    decreases |pieces|
  {
    hide Walk, EncodePiece;
    if pieces == [] {
      assert Encode(pieces) + tail == tail;
    } else {
      var head, more := EncodePiece(pieces[0]), Encode(pieces[1..]);
      assert Encode(pieces) + tail == head + (more + tail);
      TailStands(buffer, offset, head, more + tail);
      WalkPastPiece(buffer, offset, pieces[0]);
      WalkPastPieces(buffer, offset + |head|, pieces[1..], tail);
    }
  }

  /** The walk finds the first frame header behind any such pieces. */
  lemma {:induction false} WalkFindsFrame(buffer: seq<Byte>, offset: nat, pieces: seq<Piece>, f: Frame, rest: seq<Byte>)
    requires offset <= |buffer| && Framed(buffer[offset..], pieces, f, rest)
    ensures Walk(buffer, offset) == Some(Dimensions(f.width, f.height))
    decreases |pieces|
  {
    hide Walk, EncodeFrame, EncodePiece;
    if pieces == [] {
      assert Encode(pieces) + EncodeFrame(f) + rest == EncodeFrame(f) + rest;
      TailStands(buffer, offset, EncodeFrame(f), rest);
      WalkReadsFrame(buffer, offset, f);
    } else {
      var head, tail := EncodePiece(pieces[0]), Encode(pieces[1..]) + EncodeFrame(f) + rest;
      assert Encode(pieces) + EncodeFrame(f) + rest == head + tail;
      TailStands(buffer, offset, head, tail);
      WalkPastPiece(buffer, offset, pieces[0]);
      WalkFindsFrame(buffer, offset + |head|, pieces[1..], f, rest);
    }
  }

  ghost predicate Passes(buffer: seq<Byte>, offset: nat, p: Piece) {
    && ValidPiece(p) && offset + |EncodePiece(p)| <= |buffer|
    && EncodePiece(p) == buffer[offset..offset + |EncodePiece(p)|]
    && Walk(buffer, offset) == Walk(buffer, offset + |EncodePiece(p)|)
  }

  lemma {:induction false} ShortStep(buffer: seq<Byte>, offset: nat, p: Piece)
    requires Walk(buffer, offset).Some? && ValidPiece(p) && !p.Segment?
    requires EncodePiece(p) == buffer[offset..offset + |EncodePiece(p)|]
    ensures Passes(buffer, offset, p)
  {
  }

  lemma SegmentBytes(buffer: seq<Byte>, offset: nat, payload: seq<Byte>)
    requires offset + 4 + |payload| <= |buffer| && payload == buffer[offset + 4..offset + 4 + |payload|]
    requires buffer[offset] == 0xff && U16(buffer[offset + 2], buffer[offset + 3]) == |payload| + 2
    ensures |payload| + 2 < 0x1_0000
    ensures [0xff, buffer[offset + 1], Hi(|payload| + 2), Lo(|payload| + 2)] + payload
         == buffer[offset..offset + 4 + |payload|]
  {
    NumberOf(buffer[offset + 2], buffer[offset + 3]);
    hide U16, Hi, Lo;
    assert buffer[offset..offset + 4 + |payload|] == buffer[offset..offset + 4] + payload;
  }

  lemma SegmentStep(buffer: seq<Byte>, offset: nat) returns (p: Piece)
    requires Walk(buffer, offset).Some? && buffer[offset] == 0xff
    requires !Standalone(buffer[offset + 1]) && !StartOfFrame(buffer[offset + 1])
    ensures Passes(buffer, offset, p)
  {
    var marker, at := buffer[offset + 1], offset + 2;
    var length := U16(buffer[at], buffer[at + 1]);
    assert 2 <= length <= |buffer| - at && Walk(buffer, offset) == Walk(buffer, at + length);
    hide Walk, U16;
    var payload := buffer[at + 2..at + length];
    SegmentBytes(buffer, offset, payload);
    p := Segment(marker, payload);
  }

  ghost predicate AtFrame(buffer: seq<Byte>, offset: nat) {
    && offset + 9 < |buffer| && buffer[offset] == 0xff && StartOfFrame(buffer[offset + 1])
    && var length := U16(buffer[offset + 2], buffer[offset + 3]);
       length >= 7 && offset + 2 + length <= |buffer|
  }

  /** One step of a successful walk: either it stands at the frame header or it passes a piece. */
  lemma StepOfWalk(buffer: seq<Byte>, offset: nat) returns (step: Option<Piece>)
    requires Walk(buffer, offset).Some?
    ensures match step
            case Some(p) => Passes(buffer, offset, p)
            case None => AtFrame(buffer, offset)
  {
    if buffer[offset] != 0xff {
      ShortStep(buffer, offset, Junk(buffer[offset]));
      step := Some(Junk(buffer[offset]));
    } else {
      var marker := buffer[offset + 1];
      if Standalone(marker) {
        ShortStep(buffer, offset, Marker(marker));
        step := Some(Marker(marker));
      } else if StartOfFrame(marker) {
        step := None;
      } else {
        var p := SegmentStep(buffer, offset);
        step := Some(p);
      }
    }
  }

  lemma FrameBytes(bytes: seq<Byte>, f: Frame)
    requires |bytes| == 9 && ValidFrame(f) && bytes[0] == 0xff && bytes[1] == f.marker && bytes[4] == f.precision
    requires bytes[2] == Hi(f.length) && bytes[3] == Lo(f.length)
    requires bytes[5] == Hi(f.height) && bytes[6] == Lo(f.height) && bytes[7] == Hi(f.width) && bytes[8] == Lo(f.width)
    ensures EncodeFrame(f) == bytes
  {
    hide Hi, Lo;
  }

  lemma FrameIsFramed(buffer: seq<Byte>, offset: nat) returns (f: Frame, rest: seq<Byte>)
    requires AtFrame(buffer, offset)
    ensures Framed(buffer[offset..], [], f, rest) && Walk(buffer, offset) == Some(Dimensions(f.width, f.height))
  {
    hide Walk, EncodeFrame, Hi, Lo;
    var bytes := buffer[offset..offset + 9];
    NumberOf(bytes[2], bytes[3]);
    NumberOf(bytes[5], bytes[6]);
    NumberOf(bytes[7], bytes[8]);
    f := Frame(bytes[1], U16(bytes[2], bytes[3]), bytes[4], U16(bytes[5], bytes[6]), U16(bytes[7], bytes[8]));
    rest := buffer[offset + 9..];
    FrameBytes(bytes, f);
    assert f.length == U16(buffer[offset + 2], buffer[offset + 3]);
    hide U16;
    assert buffer[offset..] == EncodeFrame(f) + rest;
    assert Encode([]) + EncodeFrame(f) + rest == EncodeFrame(f) + rest;
    TailStands(buffer, offset, EncodeFrame(f), rest);
    WalkReadsFrame(buffer, offset, f);
  }

  /** And whatever it reports is such a header: the walk never invents dimensions. */
  lemma {:induction false} WalkIsFramed(
    buffer: seq<Byte>, offset: nat) returns (pieces: seq<Piece>, f: Frame, rest: seq<Byte>)
    requires offset <= |buffer| && Walk(buffer, offset).Some?
    ensures Framed(buffer[offset..], pieces, f, rest)
    ensures Walk(buffer, offset) == Some(Dimensions(f.width, f.height))
    decreases |buffer| - offset
  {
    hide Walk, EncodeFrame;
    var step := StepOfWalk(buffer, offset);
    if step.None? {
      f, rest := FrameIsFramed(buffer, offset);
      pieces := [];
    } else {
      var head := EncodePiece(step.value);
      assert |head| > 0;
      hide EncodePiece;
      var later: seq<Piece>;
      later, f, rest := WalkIsFramed(buffer, offset + |head|);
      pieces := [step.value] + later;
      assert pieces[1..] == later;
      assert buffer[offset..] == head + buffer[offset + |head|..];
      assert head + (Encode(later) + EncodeFrame(f) + rest) == Encode(pieces) + EncodeFrame(f) + rest;
    }
  }

  ghost predicate HasFrame(tail: seq<Byte>, d: Dimensions) {
    exists pieces, f, rest :: Framed(tail, pieces, f, rest) && d == Dimensions(f.width, f.height)
  }

  lemma {:induction false} WalkIff(buffer: seq<Byte>, offset: nat, d: Dimensions)
    requires offset <= |buffer|
    ensures Walk(buffer, offset) == Some(d) <==> HasFrame(buffer[offset..], d)
  {
    hide Walk, Framed;
    if Walk(buffer, offset) == Some(d) {
      var pieces, f, rest := WalkIsFramed(buffer, offset);
      assert Framed(buffer[offset..], pieces, f, rest);
    }
    if HasFrame(buffer[offset..], d) {
      var pieces, f, rest :| Framed(buffer[offset..], pieces, f, rest) && d == Dimensions(f.width, f.height);
      WalkFindsFrame(buffer, offset, pieces, f, rest);
    }
  }

  /** Dimensions are reported exactly for the streams that carry them, and they are unique. */
  lemma {:induction false} ReadIff(buffer: seq<Byte>, d: Dimensions)
    requires |buffer| >= 2
    ensures Walk(buffer, 2) == Some(d) <==> HasFrame(buffer[2..], d)
  {
    WalkIff(buffer, 2, d);
  }

  // ---- Streams as T.81 writes them ----

  /** A component specification of a frame header: identifier, sampling factors, quantization table. */
  datatype Component = Component(id: Byte, sampling: Byte, table: Byte)

  function EncodeComponents(cs: seq<Component>): (r: seq<Byte>)
    ensures |r| == 3 * |cs|
  {
    if cs == [] then [] else [cs[0].id, cs[0].sampling, cs[0].table] + EncodeComponents(cs[1..])
  }

  /** A frame header of length 8 + 3 Nf (section B.2.2). */
  function EncodeFrameHeader(marker: Byte, precision: Byte, height: nat, width: nat, cs: seq<Component>): seq<Byte>
    requires 0xc0 <= marker <= 0xcf && marker !in {0xc4, 0xc8, 0xcc}
    requires height < 0x1_0000 && width < 0x1_0000 && |cs| < 256
  {
    EncodeFrame(Frame(marker, 8 + 3 * |cs|, precision, height, width)) + [|cs|] + EncodeComponents(cs)
  }

  const SOI: seq<Byte> := [0xff, 0xd8]

  /**
    * For SOI, any standalone markers and non-frame segments, a frame header and
    * anything after it, the reader gives back the header's height and width.
    */
  lemma {:induction false} ReadUndoesEncoding(
    pieces: seq<Piece>, marker: Byte, precision: Byte, height: nat, width: nat, cs: seq<Component>,
    trailing: seq<Byte>)
    requires forall p <- pieces :: ValidPiece(p) && !p.Junk?
    requires 0xc0 <= marker <= 0xcf && marker !in {0xc4, 0xc8, 0xcc}
    requires height < 0x1_0000 && width < 0x1_0000 && |cs| < 256
    ensures var buffer := SOI + Encode(pieces) + EncodeFrameHeader(marker, precision, height, width, cs) + trailing;
            Walk(buffer, 2) == Some(Dimensions(width, height))
  {
    hide Walk, Encode, EncodeFrame, EncodeComponents;
    var buffer := SOI + Encode(pieces) + EncodeFrameHeader(marker, precision, height, width, cs) + trailing;
    var f := Frame(marker, 8 + 3 * |cs|, precision, height, width);
    var rest := [|cs|] + EncodeComponents(cs) + trailing;
    assert buffer[2..] == Encode(pieces) + EncodeFrame(f) + rest;
    WalkFindsFrame(buffer, 2, pieces, f, rest);
  }

  /** Concretely: a progressive picture (SOF2) two samples wide and three lines high. */
  lemma ProgressiveIsRead()
    ensures Walk([0xff, 0xd8, 0xff, 0xc2, 0x00, 0x0b, 0x08, 0x00, 0x03, 0x00, 0x02, 0x01, 0x01, 0x11, 0x00, 0x00], 2)
         == Some(Dimensions(2, 3))
  {
    var buffer: seq<Byte> :=
      [0xff, 0xd8, 0xff, 0xc2, 0x00, 0x0b, 0x08, 0x00, 0x03, 0x00, 0x02, 0x01, 0x01, 0x11, 0x00, 0x00];
    assert buffer[2] == 0xff && buffer[3] == 0xc2;
  }

  // ---- Fill bytes ----
  //
  // Section B.1.1.2 allows fill bytes, all 0xff, before any marker.  The reader takes the fill byte's
  // successor for the marker and the two bytes after that for a segment length.

  /** Where the walk goes from a fill byte: over as many bytes as the misread length says. */
  lemma {:induction false} FillByteJumps(buffer: seq<Byte>, offset: nat)
    requires offset + 1 < |buffer| && buffer[offset] == 0xff && buffer[offset + 1] == 0xff
    ensures Walk(buffer, offset)
         == if offset + 9 >= |buffer| then None
            else
              var length := U16(buffer[offset + 2], buffer[offset + 3]);
              if length < 2 || offset + 2 + length > |buffer| then None else Walk(buffer, offset + 2 + length)
  {
  }

  lemma DropTwice(s: seq<Byte>, i: nat, j: nat)
    requires i + j <= |s|
    ensures s[i + j..] == s[i..][j..]
  {
  }

  /**
    * Behind any pieces, a fill byte and whatever follows it, the reader reports dimensions exactly when
    * a frame with them is to be found at the jump, wherever the true frame header stands.
    */
  lemma {:induction false} FillByteIff(buffer: seq<Byte>, pieces: seq<Piece>, fill: seq<Byte>, d: Dimensions)
    requires |buffer| >= 2 && (forall p <- pieces :: ValidPiece(p)) && buffer[2..] == Encode(pieces) + fill
    requires |fill| >= 2 && fill[0] == fill[1] == 0xff
    ensures Walk(buffer, 2) == Some(d)
       <==> && |fill| > 9
            && var length := U16(fill[2], fill[3]);
               2 <= length <= |fill| - 2 && HasFrame(fill[2 + length..], d)
  {
    hide Walk, HasFrame, Encode, U16;
    WalkPastPieces(buffer, 2, pieces, fill);
    var at := 2 + |Encode(pieces)|;
    assert |fill| == |buffer| - at;
    forall i | 0 <= i < |fill| ensures buffer[at + i] == fill[i] {
      assert buffer[at..][i] == fill[i];
    }
    assert buffer[at + 0] == 0xff && buffer[at + 1] == 0xff;
    FillByteJumps(buffer, at);
    if |fill| > 9 {
      assert buffer[at + 2] == fill[2] && buffer[at + 3] == fill[3];
      var length := U16(fill[2], fill[3]);
      if 2 <= length <= |fill| - 2 {
        WalkIff(buffer, at + 2 + length, d);
        DropTwice(buffer, at, 2 + length);
      }
    }
  }

  lemma FrameStart(marker: Byte, precision: Byte, height: nat, width: nat, cs: seq<Component>)
    requires 0xc0 <= marker <= 0xcf && marker !in {0xc4, 0xc8, 0xcc}
    requires height < 0x1_0000 && width < 0x1_0000 && |cs| < 256
    ensures var header := EncodeFrameHeader(marker, precision, height, width, cs);
            |header| == 10 + 3 * |cs| && header[0] == 0xff && header[1] == marker && header[2] == (8 + 3 * |cs|) / 256
  {
    hide EncodeComponents;
  }

  /** A fill byte before a frame header hides every frame of a stream with less than 48 KiB to come. */
  lemma {:induction false} FillByteHidesFrame(
    pieces: seq<Piece>, marker: Byte, precision: Byte, height: nat, width: nat, cs: seq<Component>,
    trailing: seq<Byte>)
    requires forall p <- pieces :: ValidPiece(p)
    requires 0xc0 <= marker <= 0xcf && marker !in {0xc4, 0xc8, 0xcc}
    requires height < 0x1_0000 && width < 0x1_0000 && |cs| < 256
    requires 10 + 3 * |cs| + |trailing| <= 0xc000
    ensures
      var header := EncodeFrameHeader(marker, precision, height, width, cs);
      Walk(SOI + Encode(pieces) + [0xff] + header + trailing, 2) == None
  {
    hide Walk, Encode, EncodeFrameHeader, HasFrame;
    var header := EncodeFrameHeader(marker, precision, height, width, cs);
    var fill := [0xff] + header + trailing;
    var buffer := SOI + Encode(pieces) + [0xff] + header + trailing;
    FrameStart(marker, precision, height, width, cs);
    assert buffer[2..] == Encode(pieces) + fill;
    assert fill[1] == header[0] && fill[2] == header[1];
    assert U16(fill[2], fill[3]) >= 0xc000;
    if Walk(buffer, 2).Some? {
      FillByteIff(buffer, pieces, fill, Walk(buffer, 2).value);
    }
  }

  lemma LengthOfMarker(marker: Byte, low: Byte)
    ensures U16(marker, low) == 256 * marker + low
  {
  }

  lemma FrameAlone(f: Frame, rest: seq<Byte>)
    requires ValidFrame(f) && rest != [] && f.length <= 7 + |rest|
    ensures HasFrame(EncodeFrame(f) + rest, Dimensions(f.width, f.height))
  {
    hide EncodeFrame;
    assert Encode([]) + EncodeFrame(f) + rest == EncodeFrame(f) + rest;
    assert Framed(EncodeFrame(f) + rest, [], f, rest);
  }

  lemma {:induction false} JumpToFrame(
    buffer: seq<Byte>, pieces: seq<Piece>, front: seq<Byte>, frame: seq<Byte>, d: Dimensions)
    requires |buffer| >= 2 && (forall p <- pieces :: ValidPiece(p))
    requires buffer[2..] == Encode(pieces) + (front + frame)
    requires |front| >= 10 && front[0] == front[1] == 0xff && |front| == 2 + U16(front[2], front[3])
    requires HasFrame(frame, d)
    ensures Walk(buffer, 2) == Some(d)
  {
    hide Walk, Encode, HasFrame, U16;
    var fill := front + frame;
    assert fill[2 + U16(fill[2], fill[3])..] == frame;
    FillByteIff(buffer, pieces, fill, d);
  }

  /**
    * And when there is more to come, a frame header that stands just at the jump, in scan data or in an
    * embedded image, is taken for the picture's own: the reader returns its dimensions.
    */
  lemma {:induction false} FillByteMisleads(
    pieces: seq<Piece>, marker: Byte, precision: Byte, height: nat, width: nat, cs: seq<Component>,
    padding: seq<Byte>, f: Frame, rest: seq<Byte>)
    requires forall p <- pieces :: ValidPiece(p)
    requires 0xc0 <= marker <= 0xcf && marker !in {0xc4, 0xc8, 0xcc}
    requires height < 0x1_0000 && width < 0x1_0000 && |cs| < 256
    requires 11 + 3 * |cs| + |padding| == 2 + U16(marker, (8 + 3 * |cs|) / 256)
    requires ValidFrame(f) && rest != [] && f.length <= 7 + |rest|
    ensures
      var header := EncodeFrameHeader(marker, precision, height, width, cs);
      Walk(SOI + Encode(pieces) + [0xff] + header + padding + EncodeFrame(f) + rest, 2)
      == Some(Dimensions(f.width, f.height))
  {
    hide Walk, EncodeFrameHeader, EncodeFrame, U16, Encode;
    var header := EncodeFrameHeader(marker, precision, height, width, cs);
    var front, frame := [0xff] + header + padding, EncodeFrame(f) + rest;
    var buffer := SOI + Encode(pieces) + [0xff] + header + padding + EncodeFrame(f) + rest;
    FrameStart(marker, precision, height, width, cs);
    assert front[1] == header[0] && front[2] == header[1] && front[3] == header[2];
    LengthOfMarker(marker, (8 + 3 * |cs|) / 256);
    FrameAlone(f, rest);
    assert buffer[2..] == Encode(pieces) + (front + frame);
    JumpToFrame(buffer, pieces, front, frame, Dimensions(f.width, f.height));
  }

  /** Concretely: a picture 1 by 1 of which the reader says 2 by 3. */
  lemma WrongDimensions() returns (buffer: seq<Byte>, trailing: seq<Byte>)
    ensures buffer == SOI + [0xff] + EncodeFrameHeader(0xc0, 8, 1, 1, [Component(1, 0x11, 0)]) + trailing
    ensures Walk(buffer, 2) == Some(Dimensions(2, 3))
  {
    hide Walk, EncodeFrameHeader, EncodeFrame;
    var cs := [Component(1, 0x11, 0)];
    var header := EncodeFrameHeader(0xc0, 8, 1, 1, cs);
    var padding := seq(0xbff4, _ => 0 as Byte);
    var f := Frame(0xc0, 8, 8, 3, 2);
    var frame := EncodeFrame(f) + [0];
    trailing := padding + frame;
    buffer := SOI + [0xff] + header + trailing;
    assert Encode([]) == [];
    assert buffer == SOI + Encode([]) + [0xff] + header + padding + EncodeFrame(f) + [0];
    FillByteMisleads([], 0xc0, 8, 1, 1, cs, padding, f, [0]);
  }
}
