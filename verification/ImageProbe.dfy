/** Reading the header of a JPEG, PNG or BMP file from its first bytes. Segment syntax
    follows ISO/IEC 10918-1 (ITU-T T.81), sections B.1.1.2, B.1.1.4 and B.2.2. */
module ImageProbe {
  import opened Wrappers

  type Byte = x: int | 0 <= x < 256
  type Bytes = seq<Byte>

  datatype Meta =
    | Jpeg(width: nat, height: nat, channels: nat, precision: nat, sofMarker: Byte)
    | Png(width: nat, height: nat, channels: nat, bitDepth: nat, colorType: nat)
    | Bmp(width: nat, height: nat, channels: nat, bitsPerPixel: nat)

  datatype ProbeError =
    | NotJpeg | InvalidSegmentLength | TruncatedSof | SofNotFound
    | TruncatedPng | NotPng | NoIhdr | UnsupportedColorType
    | TruncatedBmp | NotBmp
    | TooSmall | UnsupportedFormat

  // ----- JPEG ---------------------------------------------------------------------------

  const SOI: Bytes := [0xFF, 0xD8]

  predicate IsSof(m: Byte) {
    0xC0 <= m <= 0xC3 || 0xC5 <= m <= 0xC7 || 0xC9 <= m <= 0xCB || 0xCD <= m <= 0xCF
  }

  /** Markers the scan passes over without reading a length. EOI (0xD9) is one of them. */
  predicate IsStandalone(m: Byte) {
    m == 0x01 || 0xD0 <= m <= 0xD9
  }

  function U16(hi: Byte, lo: Byte): nat {
    hi * 256 + lo
  }

  function DropJunk(s: Bytes): (r: Bytes)
    ensures |r| <= |s| && (r != [] ==> r[0] == 0xFF)
  {
    if s == [] || s[0] == 0xFF then s else DropJunk(s[1..])
  }

  function DropFill(s: Bytes): (r: Bytes)
    ensures |r| <= |s| && (s != [] && s[0] == 0xFF ==> |r| < |s|)
  {
    if s == [] || s[0] != 0xFF then s else DropFill(s[1..])
  }

  function FrameMeta(m: Byte, segment: Bytes): (r: Result<Meta, ProbeError>) {
    if |segment| < 6 then Failure(TruncatedSof)
    else Success(Jpeg(U16(segment[3], segment[4]), U16(segment[1], segment[2]), segment[5], segment[0], m))
  }

  /** What the scan finds in the bytes that are left. */
  function Scan(s: Bytes): Result<Meta, ProbeError>
    decreases |s|
  {
    var t := DropFill(DropJunk(s));
    if t == [] then Failure(SofNotFound)
    else if IsStandalone(t[0]) then Scan(t[1..])
    else if t[0] == 0xDA || |t| < 3 then Failure(SofNotFound)
    else
      var length := U16(t[1], t[2]);
      if length < 2 then Failure(InvalidSegmentLength)
      else if |t| < 1 + length then Failure(SofNotFound)
      else if IsSof(t[0]) then FrameMeta(t[0], t[3..])
      else Scan(t[1 + length..])
  }

  function JpegHeader(data: Bytes): Result<Meta, ProbeError> {
    if |data| < 4 || data[..2] != SOI then Failure(NotJpeg) else Scan(data[2..])
  }

  method SkipJunk(data: Bytes, start: nat) returns (pos: nat)
    requires start <= |data|
    ensures start <= pos <= |data| && data[pos..] == DropJunk(data[start..])
  {
    pos := start;
    while pos < |data| && data[pos] != 0xFF
      invariant start <= pos <= |data| && DropJunk(data[pos..]) == DropJunk(data[start..])
    {
      assert data[pos..][1..] == data[pos + 1..];
      pos := pos + 1;
    }
  }

  method SkipFill(data: Bytes, start: nat) returns (pos: nat)
    requires start <= |data|
    ensures start <= pos <= |data| && data[pos..] == DropFill(data[start..])
  {
    pos := start;
    while pos < |data| && data[pos] == 0xFF
      invariant start <= pos <= |data| && DropFill(data[pos..]) == DropFill(data[start..])
    {
      assert data[pos..][1..] == data[pos + 1..];
      pos := pos + 1;
    }
  }

  method ReadFrame(data: Bytes, start: nat, marker: Byte) returns (r: Result<Meta, ProbeError>)
    requires start <= |data|
    ensures r == FrameMeta(marker, data[start..])
  {
    if start + 6 > |data| {
      return Failure(TruncatedSof);
    }
    var height := U16(data[start + 1], data[start + 2]);
    var width := U16(data[start + 3], data[start + 4]);
    return Success(Jpeg(width, height, data[start + 5], data[start], marker));
  }

  /** What follows a marker read at `pos - 1`: either the outcome of the whole scan, or the
      position after the segment, where it goes on. */
  method ReadSegment(data: Bytes, pos: nat, marker: Byte, ghost rest: Bytes)
    returns (r: Option<Result<Meta, ProbeError>>, next: nat)
    requires 0 < pos <= |data| && marker == data[pos - 1] && data[pos - 1..] == DropFill(DropJunk(rest))
    ensures pos <= next <= |data|
    ensures Scan(rest) == match r case Some(result) => result case None => Scan(data[next..])
  {
    ghost var t := data[pos - 1..];
    next := pos;
    assert t[1..] == data[pos..];
    if marker == 0x01 || 0xD0 <= marker <= 0xD9 {
      return None, pos;
    }
    if marker == 0xDA || marker == 0xD9 || pos + 2 > |data| {
      return Some(Failure(SofNotFound)), pos;
    }
    var length := U16(data[pos], data[pos + 1]);
    if length < 2 {
      return Some(Failure(InvalidSegmentLength)), pos;
    }
    var start, end := pos + 2, pos + length;
    if end > |data| {
      return Some(Failure(SofNotFound)), pos;
    }
    if IsSof(marker) {
      assert t[3..] == data[start..];
      var frame := ReadFrame(data, start, marker);
      return Some(frame), pos;
    }
    assert t[1 + length..] == data[end..];
    return None, end;
  }

  method ProbeJpeg(data: Bytes) returns (r: Result<Meta, ProbeError>)
    ensures r == JpegHeader(data)
  {
    if |data| < 4 || data[..2] != SOI {
      return Failure(NotJpeg);
    }
    var pos := 2;
    while pos < |data|
      invariant 2 <= pos <= |data|
      invariant Scan(data[pos..]) == JpegHeader(data)
      decreases |data| - pos
    {
      ghost var rest := data[pos..];
      pos := SkipJunk(data, pos);
      if pos >= |data| {
        break;
      }
      pos := SkipFill(data, pos);
      if pos >= |data| {
        break;
      }
      var outcome, next := ReadSegment(data, pos + 1, data[pos], rest);
      if outcome.Some? {
        return outcome.value;
      }
      pos := next;
    }
    assert data[|data|..] == [];
    return Failure(SofNotFound);
  }

  // ----- an encoder the scan inverts -------------------------------------------------------

  /** A marker before the frame header: stray bytes, fill bytes, the marker, and for a
      segment its payload. */
  datatype Piece =
    | Standalone(junk: Bytes, fill: nat, marker: Byte)
    | Segment(junk: Bytes, fill: nat, marker: Byte, payload: Bytes)

  predicate ValidLead(junk: Bytes, marker: Byte) {
    marker != 0xFF && forall k :: 0 <= k < |junk| ==> junk[k] != 0xFF
  }

  predicate ValidPiece(p: Piece) {
    && ValidLead(p.junk, p.marker)
    && match p
       case Standalone(_, _, m) => IsStandalone(m)
       case Segment(_, _, m, payload) => !IsStandalone(m) && !IsSof(m) && m != 0xDA && |payload| <= 65533
  }

  datatype Frame = Frame(junk: Bytes, fill: nat, marker: Byte, precision: Byte, height: nat, width: nat,
                         components: Byte, specs: Bytes)

  predicate ValidFrame(f: Frame) {
    ValidLead(f.junk, f.marker) && IsSof(f.marker) && f.height < 65536 && f.width < 65536 && |f.specs| <= 65527
  }

  function Fill(n: nat): (r: Bytes)
    ensures |r| == n
  {
    if n == 0 then [] else [0xFF] + Fill(n - 1)
  }

  function TwoBytes(n: nat): Bytes
    requires n < 65536
  {
    [n / 256, n % 256]
  }

  function Lead(junk: Bytes, fill: nat, marker: Byte): Bytes {
    junk + (Fill(fill + 1) + [marker])
  }

  function EncodePiece(p: Piece): Bytes
    requires ValidPiece(p)
  {
    Lead(p.junk, p.fill, p.marker) + (if p.Segment? then TwoBytes(|p.payload| + 2) + p.payload else [])
  }

  function EncodeAll(ps: seq<Piece>): Bytes
    requires forall k :: 0 <= k < |ps| ==> ValidPiece(ps[k])
  {
    if ps == [] then [] else EncodePiece(ps[0]) + EncodeAll(ps[1..])
  }

  function FrameBody(f: Frame): Bytes
    requires ValidFrame(f)
  {
    [f.precision] + TwoBytes(f.height) + TwoBytes(f.width) + [f.components] + f.specs
  }

  function EncodeFrame(f: Frame): Bytes
    requires ValidFrame(f)
  {
    Lead(f.junk, f.fill, f.marker) + (TwoBytes(|FrameBody(f)| + 2) + FrameBody(f))
  }

  lemma {:induction false} JunkIsDropped(junk: Bytes, rest: Bytes)
    requires forall k :: 0 <= k < |junk| ==> junk[k] != 0xFF
    requires rest != [] && rest[0] == 0xFF
    ensures DropJunk(junk + rest) == rest
  {
    if junk == [] {
      assert junk + rest == rest;
    } else {
      assert (junk + rest)[1..] == junk[1..] + rest;
      JunkIsDropped(junk[1..], rest);
    }
  }

  lemma {:induction false} FillIsDropped(n: nat, rest: Bytes)
    requires rest != [] && rest[0] != 0xFF
    ensures DropFill(Fill(n) + rest) == rest
  {
    if n == 0 {
      assert Fill(n) + rest == rest;
    } else {
      assert (Fill(n) + rest)[1..] == Fill(n - 1) + rest;
      FillIsDropped(n - 1, rest);
    }
  }

  /** The scan reaches the marker behind stray and fill bytes. */
  lemma LeadIsSkipped(junk: Bytes, fill: nat, marker: Byte, rest: Bytes)
    requires ValidLead(junk, marker)
    ensures DropFill(DropJunk(Lead(junk, fill, marker) + rest)) == [marker] + rest
  {
    var marked := Fill(fill + 1) + ([marker] + rest);
    assert Lead(junk, fill, marker) + rest == junk + marked;
    JunkIsDropped(junk, marked);
    FillIsDropped(fill + 1, [marker] + rest);
  }

  lemma PieceIsSkipped(p: Piece, rest: Bytes)
    requires ValidPiece(p)
    ensures Scan(EncodePiece(p) + rest) == Scan(rest)
  {
    var tail := if p.Segment? then TwoBytes(|p.payload| + 2) + p.payload else [];
    LeadIsSkipped(p.junk, p.fill, p.marker, tail + rest);
    assert EncodePiece(p) + rest == Lead(p.junk, p.fill, p.marker) + (tail + rest);
    var t := [p.marker] + (tail + rest);
    match p
    case Standalone(_, _, _) =>
      assert t[1..] == rest;
    case Segment(_, _, _, payload) =>
      assert U16(t[1], t[2]) == |payload| + 2;
      assert t[1 + (|payload| + 2)..] == rest;
  }

  lemma {:induction false} PiecesAreSkipped(ps: seq<Piece>, rest: Bytes)
    requires forall k :: 0 <= k < |ps| ==> ValidPiece(ps[k])
    ensures Scan(EncodeAll(ps) + rest) == Scan(rest)
  {
    if ps == [] {
      assert EncodeAll(ps) + rest == rest;
    } else {
      assert EncodeAll(ps) + rest == EncodePiece(ps[0]) + (EncodeAll(ps[1..]) + rest);
      PieceIsSkipped(ps[0], EncodeAll(ps[1..]) + rest);
      PiecesAreSkipped(ps[1..], rest);
    }
  }

  lemma FrameIsRead(f: Frame, rest: Bytes)
    requires ValidFrame(f)
    ensures Scan(EncodeFrame(f) + rest) == Success(Jpeg(f.width, f.height, f.components, f.precision, f.marker))
  {
    var body := FrameBody(f);
    var tail := TwoBytes(|body| + 2) + body;
    LeadIsSkipped(f.junk, f.fill, f.marker, tail + rest);
    assert EncodeFrame(f) + rest == Lead(f.junk, f.fill, f.marker) + (tail + rest);
    var t := [f.marker] + (tail + rest);
    assert U16(t[1], t[2]) == |body| + 2;
    assert t[3..] == body + rest;
    var h, w := TwoBytes(f.height), TwoBytes(f.width);
    assert body == [f.precision, h[0], h[1], w[0], w[1], f.components] + f.specs;
    assert U16(h[0], h[1]) == f.height && U16(w[0], w[1]) == f.width;
  }

  /** The scan inverts the encoder: whatever valid segments and standalone markers come
      first, with whatever payloads, fill and stray bytes, and whatever follows. */
  lemma JpegRoundTrip(ps: seq<Piece>, f: Frame, rest: Bytes)
    requires ValidFrame(f) && forall k :: 0 <= k < |ps| ==> ValidPiece(ps[k])
    ensures JpegHeader(SOI + (EncodeAll(ps) + (EncodeFrame(f) + rest)))
            == Success(Jpeg(f.width, f.height, f.components, f.precision, f.marker))
  {
    var data := SOI + (EncodeAll(ps) + (EncodeFrame(f) + rest));
    assert data[..2] == SOI && data[2..] == EncodeAll(ps) + (EncodeFrame(f) + rest);
    PiecesAreSkipped(ps, EncodeFrame(f) + rest);
    FrameIsRead(f, rest);
  }

  // ----- nothing else is accepted ----------------------------------------------------------

  lemma {:induction false} JunkParses(s: Bytes) returns (junk: Bytes)
    ensures s == junk + DropJunk(s) && forall k :: 0 <= k < |junk| ==> junk[k] != 0xFF
  {
    if s == [] || s[0] == 0xFF {
      junk := [];
    } else {
      var more := JunkParses(s[1..]);
      junk := [s[0]] + more;
    }
  }

  lemma {:induction false} FillParses(s: Bytes) returns (n: nat)
    ensures s == Fill(n) + DropFill(s)
    ensures s != [] && s[0] == 0xFF ==> n > 0
    ensures DropFill(s) != [] ==> DropFill(s)[0] != 0xFF
  {
    if s == [] || s[0] != 0xFF {
      n := 0;
    } else {
      n := FillParses(s[1..]);
      n := n + 1;
    }
  }

  lemma LeadParses(s: Bytes) returns (junk: Bytes, fill: nat)
    requires DropFill(DropJunk(s)) != []
    ensures var t := DropFill(DropJunk(s));
            ValidLead(junk, t[0]) && s == Lead(junk, fill, t[0]) + t[1..]
  {
    junk := JunkParses(s);
    var n := FillParses(DropJunk(s));
    fill := n - 1;
    var t := DropFill(DropJunk(s));
    assert t == [t[0]] + t[1..];
  }

  lemma SegmentParses(t: Bytes, length: nat) returns (payload: Bytes)
    requires 3 <= |t| && length == U16(t[1], t[2]) && 2 <= length && 1 + length <= |t|
    ensures |payload| == length - 2 && t[1..] == TwoBytes(|payload| + 2) + payload + t[1 + length..]
  {
    payload := t[3..1 + length];
    assert TwoBytes(length) == [t[1], t[2]];
    assert t[1..] == [t[1], t[2]] + payload + t[1 + length..];
  }

  /** What a scan accepts: valid pieces, then a frame header whose stated length fits the
      bytes that are left and of which at least the six fixed bytes are there. */
  ghost predicate IsFrameAt(marker: Byte, tail: Bytes) {
    IsSof(marker) && |tail| >= 8 && 2 <= U16(tail[0], tail[1]) <= |tail|
  }

  lemma PrependPiece(first: Piece, ps: seq<Piece>, rest: Bytes)
    requires ValidPiece(first) && forall k :: 0 <= k < |ps| ==> ValidPiece(ps[k])
    ensures EncodePiece(first) + (EncodeAll(ps) + rest) == EncodeAll([first] + ps) + rest
  {
    EncodeAllHead(first, ps);
    Associates(EncodePiece(first), EncodeAll(ps), rest);
  }

  lemma EncodeAllHead(first: Piece, ps: seq<Piece>)
    requires ValidPiece(first) && forall k :: 0 <= k < |ps| ==> ValidPiece(ps[k])
    ensures EncodeAll([first] + ps) == EncodePiece(first) + EncodeAll(ps)
  {
    assert ([first] + ps)[1..] == ps;
  }

  lemma Associates(a: Bytes, b: Bytes, c: Bytes)
    ensures a + (b + c) == a + b + c
  {
  }

  lemma FrameParses(s: Bytes, t: Bytes)
    requires t == DropFill(DropJunk(s)) && t != [] && IsSof(t[0]) && Scan(s).Success?
    ensures IsFrameAt(t[0], t[1..]) && Scan(s) == FrameMeta(t[0], t[1..][2..])
  {
    assert t[1..][2..] == t[3..];
  }

  lemma {:induction false} ScanParses(s: Bytes)
    returns (ps: seq<Piece>, junk: Bytes, fill: nat, marker: Byte, tail: Bytes)
    requires Scan(s).Success?
    ensures forall k :: 0 <= k < |ps| ==> ValidPiece(ps[k])
    ensures ValidLead(junk, marker) && IsFrameAt(marker, tail)
    ensures s == EncodeAll(ps) + (Lead(junk, fill, marker) + tail)
    ensures Scan(s) == FrameMeta(marker, tail[2..])
    decreases |s|
  {
    var t := DropFill(DropJunk(s));
    junk, fill := LeadParses(s);
    if IsSof(t[0]) {
      ps, marker, tail := [], t[0], t[1..];
      FrameParses(s, t);
      assert [] + s == s;
    } else {
      var first, rest := PieceParses(s, t, junk, fill);
      ps, junk, fill, marker, tail := ScanParses(rest);
      PrependPiece(first, ps, Lead(junk, fill, marker) + tail);
      ps := [first] + ps;
    }
  }

  lemma PieceParses(s: Bytes, t: Bytes, junk: Bytes, fill: nat) returns (p: Piece, rest: Bytes)
    requires t == DropFill(DropJunk(s)) && t != [] && Scan(s).Success? && !IsSof(t[0])
    requires ValidLead(junk, t[0]) && s == Lead(junk, fill, t[0]) + t[1..]
    ensures ValidPiece(p) && s == EncodePiece(p) + rest && |rest| < |s| && Scan(s) == Scan(rest)
  {
    if IsStandalone(t[0]) {
      p, rest := Standalone(junk, fill, t[0]), t[1..];
      assert EncodePiece(p) == Lead(junk, fill, t[0]);
    } else {
      var length := U16(t[1], t[2]);
      var payload := SegmentParses(t, length);
      rest := t[1 + length..];
      p := SegmentEncodes(s, junk, fill, t[0], payload, rest);
    }
  }

  lemma SegmentEncodes(s: Bytes, junk: Bytes, fill: nat, marker: Byte, payload: Bytes, rest: Bytes) returns (p: Piece)
    requires ValidLead(junk, marker) && !IsStandalone(marker) && !IsSof(marker) && marker != 0xDA && |payload| <= 65533
    requires s == Lead(junk, fill, marker) + (TwoBytes(|payload| + 2) + payload + rest)
    ensures ValidPiece(p) && s == EncodePiece(p) + rest && |rest| < |s|
  {
    p := Segment(junk, fill, marker, payload);
    assert EncodePiece(p) == Lead(junk, fill, marker) + (TwoBytes(|payload| + 2) + payload);
  }

  /** A JPEG as the probe understands it: SOI, valid pieces, and a frame header. */
  ghost predicate IsHeader(data: Bytes, ps: seq<Piece>, junk: Bytes, fill: nat, marker: Byte, tail: Bytes) {
    && (forall k :: 0 <= k < |ps| ==> ValidPiece(ps[k]))
    && ValidLead(junk, marker) && IsFrameAt(marker, tail)
    && data == SOI + (EncodeAll(ps) + (Lead(junk, fill, marker) + tail))
  }

  /** Whatever the probe accepts has this form ... */
  lemma AcceptedJpegParses(data: Bytes)
    returns (ps: seq<Piece>, junk: Bytes, fill: nat, marker: Byte, tail: Bytes)
    requires JpegHeader(data).Success?
    ensures IsHeader(data, ps, junk, fill, marker, tail)
    ensures JpegHeader(data) == FrameMeta(marker, tail[2..])
  {
    ps, junk, fill, marker, tail := ScanParses(data[2..]);
    assert data == data[..2] + data[2..];
  }

  /** ... and whatever has this form is accepted, the metadata being read from its header. */
  lemma HeaderIsAccepted(data: Bytes, ps: seq<Piece>, junk: Bytes, fill: nat, marker: Byte, tail: Bytes)
    requires IsHeader(data, ps, junk, fill, marker, tail)
    ensures JpegHeader(data) == FrameMeta(marker, tail[2..]) && JpegHeader(data).Success?
  {
    var rest := Lead(junk, fill, marker) + tail;
    assert data[..2] == SOI && data[2..] == EncodeAll(ps) + rest;
    PiecesAreSkipped(ps, rest);
    LeadIsSkipped(junk, fill, marker, tail);
    var t := [marker] + tail;
    assert t[3..] == tail[2..];
  }

  lemma AcceptedIff(data: Bytes)
    ensures JpegHeader(data).Success? <==>
            exists ps, junk, fill, marker, tail :: IsHeader(data, ps, junk, fill, marker, tail)
  {
    if JpegHeader(data).Success? {
      var ps, junk, fill, marker, tail := AcceptedJpegParses(data);
    }
    if ps, junk, fill, marker, tail :| IsHeader(data, ps, junk, fill, marker, tail) {
      HeaderIsAccepted(data, ps, junk, fill, marker, tail);
    }
  }

  /** The stated length of the frame header need not cover its own fields: here it is 2, the
      length of the length itself, and the fields are read from the bytes that follow. */
  lemma ShortHeaderIsAccepted(data: Bytes)
    requires data == [0xFF, 0xD8, 0xFF, 0xC0, 0x00, 0x02, 0x08, 0x00, 0x01, 0x00, 0x01, 0x03]
    ensures JpegHeader(data) == Success(Jpeg(1, 1, 3, 8, 0xC0))
  {
    var tail := [0x00, 0x02, 0x08, 0x00, 0x01, 0x00, 0x01, 0x03];
    assert Fill(1) == [0xFF] + Fill(0);
    assert Lead([], 0, 0xC0) == [0xFF, 0xC0];
    assert data == SOI + (EncodeAll([]) + (Lead([], 0, 0xC0) + tail));
    HeaderIsAccepted(data, [], [], 0, 0xC0, tail);
  }

  /** What each marker is to the scan: 0xC0 to 0xCF without 0xC4, 0xC8 and 0xCC begin a frame
      header, 0x01 and 0xD0 to 0xD9 stand alone, 0xDA ends the scan, and all others have a
      segment to pass over. */
  function AfterMarker(marker: Byte, tail: Bytes): Result<Meta, ProbeError> {
    if marker == 0x01 || 0xD0 <= marker <= 0xD9 then Scan(tail)
    else if marker == 0xDA || |tail| < 2 then Failure(SofNotFound)
    else
      var length := U16(tail[0], tail[1]);
      if length < 2 then Failure(InvalidSegmentLength)
      else if |tail| < length then Failure(SofNotFound)
      else if !(0xC0 <= marker <= 0xCF) || marker == 0xC4 || marker == 0xC8 || marker == 0xCC then Scan(tail[length..])
      else if |tail| < 8 then Failure(TruncatedSof)
      else Success(Jpeg(U16(tail[5], tail[6]), U16(tail[3], tail[4]), tail[7], tail[2], marker))
  }

  lemma EveryMarker(ps: seq<Piece>, junk: Bytes, fill: nat, marker: Byte, tail: Bytes)
    requires (forall k :: 0 <= k < |ps| ==> ValidPiece(ps[k])) && ValidLead(junk, marker)
    ensures JpegHeader(SOI + (EncodeAll(ps) + (Lead(junk, fill, marker) + tail))) == AfterMarker(marker, tail)
  {
    var rest := Lead(junk, fill, marker) + tail;
    var data := SOI + (EncodeAll(ps) + rest);
    assert data[..2] == SOI && data[2..] == EncodeAll(ps) + rest;
    PiecesAreSkipped(ps, rest);
    LeadIsSkipped(junk, fill, marker, tail);
    ScanOfMarker(rest, [marker] + tail, marker, tail);
  }

  lemma ScanOfMarker(rest: Bytes, t: Bytes, marker: Byte, tail: Bytes)
    requires t == [marker] + tail && t == DropFill(DropJunk(rest)) && marker != 0xFF
    ensures Scan(rest) == AfterMarker(marker, tail)
  {
    assert t[1..] == tail;
    if |tail| >= 2 {
      var length := U16(tail[0], tail[1]);
      assert U16(t[1], t[2]) == length;
      if 2 <= length <= |tail| {
        assert t[3..] == tail[2..] && t[1 + length..] == tail[length..];
      }
    }
  }

  // ----- PNG and BMP ------------------------------------------------------------------------

  const PNG_MAGIC: Bytes := [0x89, 0x50, 0x4E, 0x47, 0x0D, 0x0A, 0x1A, 0x0A]
  const IHDR: Bytes := [0x49, 0x48, 0x44, 0x52]
  const BMP_MAGIC: Bytes := [0x42, 0x4D]

  function U32(b3: Byte, b2: Byte, b1: Byte, b0: Byte): nat {
    ((b3 * 256 + b2) * 256 + b1) * 256 + b0
  }

  function I32(b3: Byte, b2: Byte, b1: Byte, b0: Byte): int {
    var u := U32(b3, b2, b1, b0);
    if u < 0x8000_0000 then u else u - 0x1_0000_0000
  }

  function Abs(n: int): nat {
    if n < 0 then -n else n
  }

  function PngChannels(colorType: Byte): Option<nat> {
    match colorType
    case 0 => Some(1)
    case 2 => Some(3)
    case 3 => Some(1)
    case 4 => Some(2)
    case 6 => Some(4)
    case _ => None
  }

  function ProbePng(d: Bytes): Result<Meta, ProbeError> {
    if |d| < 29 then Failure(TruncatedPng)
    else if d[..8] != PNG_MAGIC then Failure(NotPng)
    else if d[12..16] != IHDR then Failure(NoIhdr)
    else
      match PngChannels(d[25])
      case None => Failure(UnsupportedColorType)
      case Some(c) => Success(Png(U32(d[16], d[17], d[18], d[19]), U32(d[20], d[21], d[22], d[23]), c, d[24], d[25]))
  }

  function ProbeBmp(d: Bytes): Result<Meta, ProbeError> {
    if |d| < 30 then Failure(TruncatedBmp)
    else if d[..2] != BMP_MAGIC then Failure(NotBmp)
    else
      var bpp := U16(d[29], d[28]);
      Success(Bmp(Abs(I32(d[21], d[20], d[19], d[18])), Abs(I32(d[25], d[24], d[23], d[22])),
                  if bpp / 8 < 1 then 1 else bpp / 8, bpp))
  }

  function Probe(d: Bytes): Result<Meta, ProbeError> {
    if |d| < 8 then Failure(TooSmall)
    else if d[..8] == PNG_MAGIC then ProbePng(d)
    else if d[..2] == SOI then JpegHeader(d)
    else if d[..2] == BMP_MAGIC then ProbeBmp(d)
    else Failure(UnsupportedFormat)
  }

  /** `probe_image` on the first `window` bytes of a file. */
  method ProbeImage(file: Bytes, window: nat) returns (r: Result<Meta, ProbeError>)
    ensures r == Probe(if window < |file| then file[..window] else file)
  {
    var d := if window < |file| then file[..window] else file;
    if |d| < 8 {
      return Failure(TooSmall);
    }
    if d[..8] == PNG_MAGIC {
      r := ProbePng(d);
    } else if d[..2] == SOI {
      r := ProbeJpeg(d);
    } else if d[..2] == BMP_MAGIC {
      r := ProbeBmp(d);
    } else {
      r := Failure(UnsupportedFormat);
    }
  }

  // ----- PNG and BMP headers read back -------------------------------------------------------

  /** A 32-bit number, most significant byte first. */
  function FourBytes(n: nat): Bytes
    requires n < 0x1_0000_0000
  {
    [n / 256 / 256 / 256, n / 256 / 256 % 256, n / 256 % 256, n % 256]
  }

  lemma FourBytesReadBack(n: nat)
    requires n < 0x1_0000_0000
    ensures var b := FourBytes(n); U32(b[0], b[1], b[2], b[3]) == n
  {
    var q1 := n / 256;
    var q2 := q1 / 256;
    assert q2 / 256 * 256 + q2 % 256 == q2 && q2 * 256 + q1 % 256 == q1 && q1 * 256 + n % 256 == n;
  }

  /** A 32-bit signed number in two's complement. */
  function Unsigned(v: int): nat
    requires -0x8000_0000 <= v < 0x8000_0000
  {
    if v < 0 then v + 0x1_0000_0000 else v
  }

  /** A PNG header with any chunk length and check sum gives back its fields, or the error
      for a colour type PNG does not define. */
  lemma PngRoundTrip(chunkLength: Bytes, width: nat, height: nat, depth: Byte, color: Byte, rest: Bytes)
    requires |chunkLength| == 4 && |rest| >= 3 && width < 0x1_0000_0000 && height < 0x1_0000_0000
    ensures Probe(PNG_MAGIC + chunkLength + IHDR + FourBytes(width) + FourBytes(height) + [depth, color] + rest)
            == if color == 0 || color == 3 then Success(Png(width, height, 1, depth, color))
               else if color == 2 then Success(Png(width, height, 3, depth, color))
               else if color == 4 then Success(Png(width, height, 2, depth, color))
               else if color == 6 then Success(Png(width, height, 4, depth, color))
               else Failure(UnsupportedColorType)
  {
    var w, h := FourBytes(width), FourBytes(height);
    FourBytesReadBack(width);
    FourBytesReadBack(height);
    var d := PNG_MAGIC + chunkLength + IHDR + w + h + [depth, color] + rest;
    assert d[..8] == PNG_MAGIC && d[12..16] == IHDR;
    assert d[16..20] == w && d[20..24] == h && d[24] == depth && d[25] == color;
    assert d[16] == w[0] && d[17] == w[1] && d[18] == w[2] && d[19] == w[3];
    assert d[20] == h[0] && d[21] == h[1] && d[22] == h[2] && d[23] == h[3];
  }

  /** A BMP header gives back its size; a negative height, which means rows from the top
      down, loses only its sign. */
  lemma BmpRoundTrip(lead: Bytes, width: int, height: int, planes: Bytes, bpp: nat, rest: Bytes)
    requires |lead| == 16 && |planes| == 2 && bpp < 65536
    requires -0x8000_0000 <= width < 0x8000_0000 && -0x8000_0000 <= height < 0x8000_0000
    ensures var w, h, b := FourBytes(Unsigned(width)), FourBytes(Unsigned(height)), TwoBytes(bpp);
            Probe(BMP_MAGIC + lead + [w[3], w[2], w[1], w[0]] + [h[3], h[2], h[1], h[0]] + planes + [b[1], b[0]] + rest)
            == Success(Bmp(Abs(width), Abs(height), if bpp < 8 then 1 else bpp / 8, bpp))
  {
    var w, h, b := FourBytes(Unsigned(width)), FourBytes(Unsigned(height)), TwoBytes(bpp);
    FourBytesReadBack(Unsigned(width));
    FourBytesReadBack(Unsigned(height));
    var d := BMP_MAGIC + lead + [w[3], w[2], w[1], w[0]] + [h[3], h[2], h[1], h[0]] + planes + [b[1], b[0]] + rest;
    assert d[0] == 0x42 && d[..2] == BMP_MAGIC && d[..8][0] != PNG_MAGIC[0];
    assert d[18] == w[3] && d[19] == w[2] && d[20] == w[1] && d[21] == w[0];
    assert d[22] == h[3] && d[23] == h[2] && d[24] == h[1] && d[25] == h[0];
    assert d[28] == b[1] && d[29] == b[0];
  }

  /** What is refused, and why, when the window is too short or the magic is not known. */
  lemma RefusedWindows(d: Bytes)
    ensures |d| < 8 ==> Probe(d) == Failure(TooSmall)
    ensures 8 <= |d| && d[..8] == PNG_MAGIC ==>
              (|d| < 29 <==> Probe(d) == Failure(TruncatedPng)) &&
              (|d| >= 29 && d[12..16] != IHDR <==> Probe(d) == Failure(NoIhdr))
    ensures 8 <= |d| && d[0] == 0x42 && d[1] == 0x4D ==> (|d| < 30 <==> Probe(d) == Failure(TruncatedBmp))
    ensures 8 <= |d| && d[0] == 0xFF && d[1] == 0xD8 ==> Probe(d) == JpegHeader(d)
    ensures 8 <= |d| && d[..8] != PNG_MAGIC && !(d[0] == 0xFF && d[1] == 0xD8) && !(d[0] == 0x42 && d[1] == 0x4D) ==>
              Probe(d) == Failure(UnsupportedFormat)
  {
    if |d| >= 8 {
      assert d[..2] == [d[0], d[1]];
      assert d[..8] == PNG_MAGIC ==> d[0] == d[..8][0] == 0x89;
    }
  }

  // ----- a longer window ----------------------------------------------------------------------

  lemma {:induction false} JunkOfLonger(s: Bytes, more: Bytes)
    requires DropJunk(s) != []
    ensures DropJunk(s + more) == DropJunk(s) + more
  {
    if s[0] != 0xFF {
      assert (s + more)[1..] == s[1..] + more;
      JunkOfLonger(s[1..], more);
    }
  }

  lemma {:induction false} FillOfLonger(s: Bytes, more: Bytes)
    requires DropFill(s) != []
    ensures DropFill(s + more) == DropFill(s) + more
  {
    if s[0] == 0xFF {
      assert (s + more)[1..] == s[1..] + more;
      FillOfLonger(s[1..], more);
    }
  }

  lemma MarkerOfLonger(s: Bytes, more: Bytes)
    requires DropFill(DropJunk(s)) != []
    ensures DropFill(DropJunk(s + more)) == DropFill(DropJunk(s)) + more
  {
    JunkOfLonger(s, more);
    FillOfLonger(DropJunk(s), more);
  }

  /** A scan that found a frame, or a segment length it must reject, finds the same when
      more bytes are available. */
  lemma {:induction false} ScanOfLonger(s: Bytes, more: Bytes)
    requires Scan(s).Success? || Scan(s) == Failure(InvalidSegmentLength)
    ensures Scan(s + more) == Scan(s)
    decreases |s|
  {
    MarkerOfLonger(s, more);
    var t := DropFill(DropJunk(s));
    var t' := t + more;
    if IsStandalone(t[0]) {
      assert t'[1..] == t[1..] + more;
      ScanOfLonger(t[1..], more);
    } else {
      var length := U16(t[1], t[2]);
      if IsSof(t[0]) {
        assert t'[3..] == t[3..] + more;
      } else if 2 <= length {
        assert t'[1 + length..] == t[1 + length..] + more;
        ScanOfLonger(t[1 + length..], more);
      }
    }
  }

  /** Once a read window is long enough for a header, every longer window gives the same
      metadata. */
  lemma LongerWindowSameMeta(file: Bytes, window: nat, longer: nat)
    requires window <= longer <= |file|
    requires Probe(file[..window]).Success?
    ensures Probe(file[..longer]) == Probe(file[..window])
  {
    var d, more := file[..window], file[window..longer];
    var d' := file[..longer];
    assert d' == d + more;
    assert d'[..8] == d[..8] && d'[..2] == d[..2];
    if d[..8] == PNG_MAGIC {
      assert d'[12..16] == d[12..16];
    } else if d[..2] == SOI {
      assert d'[2..] == d[2..] + more;
      ScanOfLonger(d[2..], more);
    }
  }
}
