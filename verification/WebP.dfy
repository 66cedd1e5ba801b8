/**
  The WebP container editor of cmd/api/helpers.go: the chunk parser, the VP8X
  flag edit, the assembler, and the TIFF-shaped EXIF payload.

  The parser is specified by `Walk`, a reader for the RIFF chunk grammar of
  section 2.3 of RFC 9649, and `Walk` is in turn pinned down from both sides by
  the printer `Layout`.
 */
module WebP {
  import opened Bytes
  import opened Common

  /** A four-character code, as the 32-bit number its bytes spell in the file. */
  type FourCC = nat

  const RIFF: FourCC := 0x46464952
  const WEBP: FourCC := 0x50424557
  const VP8X: FourCC := 0x58385056
  const EXIF: FourCC := 0x46495845

  lemma FourCCBytes()
    ensures LE32(RIFF) == [0x52, 0x49, 0x46, 0x46]
    ensures LE32(WEBP) == [0x57, 0x45, 0x42, 0x50]
    ensures LE32(VP8X) == [0x56, 0x50, 0x38, 0x58]
    ensures LE32(EXIF) == [0x45, 0x58, 0x49, 0x46]
  {
    LE32Onto([0x52, 0x49, 0x46, 0x46]);
    LE32Onto([0x57, 0x45, 0x42, 0x50]);
    LE32Onto([0x56, 0x50, 0x38, 0x58]);
    LE32Onto([0x45, 0x58, 0x49, 0x46]);
  }

  const RIFF_HEADER_SIZE: nat := 12
  const CHUNK_HEADER_SIZE: nat := 8
  const VP8X_PAYLOAD_SIZE: nat := 10
  const VP8X_FLAGS_OFFSET: nat := 8
  const VP8X_WIDTH_OFFSET: nat := 12
  const VP8X_HEIGHT_OFFSET: nat := 15

  datatype Error = NotWebP | BadConfig | Truncated(tag: FourCC)
  datatype Result<T> = Ok(value: T) | Err(error: Error)

  /** What the parser returns: the copied chunks and the index of the VP8X to edit. */
  datatype Parsed = Parsed(chunks: seq<seq<Byte>>, vp8xIndex: int)

  /** Canvas dimensions, as image.DecodeConfig reports them. */
  datatype Dims = Dims(width: int, height: int)

  // ---------------------------------------------------------------------
  // The chunk grammar
  // ---------------------------------------------------------------------

  /** A chunk as it stands in a file: the pad byte need not be zero, and the last one may be missing. */
  datatype RawChunk = RawChunk(tag: FourCC, data: seq<Byte>, pad: seq<Byte>)

  predicate Framed(c: RawChunk) {
    c.tag < 0x1_0000_0000 && |c.data| < 0x1_0000_0000 && |c.pad| == |c.data| % 2
  }

  predicate AllFramed(cs: seq<RawChunk>) {
    forall i :: 0 <= i < |cs| ==> Framed(cs[i])
  }

  predicate FramedWithoutPad(c: RawChunk) {
    c.tag < 0x1_0000_0000 && |c.data| < 0x1_0000_0000 && |c.data| % 2 == 1 && c.pad == []
  }

  /** Complete chunks followed by under eight stray bytes; with no stray bytes the last pad may be absent. */
  predicate WellLaid(cs: seq<RawChunk>, tail: seq<Byte>) {
    && |tail| < CHUNK_HEADER_SIZE
    && (AllFramed(cs)
        || (tail == [] && |cs| > 0 && AllFramed(cs[..|cs| - 1]) && FramedWithoutPad(cs[|cs| - 1])))
  }

  function RawBytes(c: RawChunk): seq<Byte> {
    LE32(c.tag) + LE32(|c.data|) + c.data + c.pad
  }

  function Layout(cs: seq<RawChunk>): seq<Byte> {
    if cs == [] then [] else RawBytes(cs[0]) + Layout(cs[1..])
  }

  datatype Walked = Complete(chunks: seq<RawChunk>, tail: seq<Byte>) | Cut(tag: FourCC)

  function Prepend(cs: seq<RawChunk>, w: Walked): Walked {
    match w
    case Complete(ds, tail) => Complete(cs + ds, tail)
    case Cut(tag) => w
  }

  /** Length of the chunk at the front of s: header, data, and the pad byte if it is there. */
  function Span(s: seq<Byte>): (n: nat)
    requires |s| >= CHUNK_HEADER_SIZE && |s| >= CHUNK_HEADER_SIZE + U32(s[4..8])
    ensures CHUNK_HEADER_SIZE + U32(s[4..8]) <= n <= |s|
  {
    var size := U32(s[4..8]);
    if |s| < CHUNK_HEADER_SIZE + size + size % 2 then |s| else CHUNK_HEADER_SIZE + size + size % 2
  }

  function Head(s: seq<Byte>): RawChunk
    requires |s| >= CHUNK_HEADER_SIZE && |s| >= CHUNK_HEADER_SIZE + U32(s[4..8])
  {
    var end := CHUNK_HEADER_SIZE + U32(s[4..8]);
    RawChunk(U32(s[0..4]), s[8..end], s[end..Span(s)])
  }

  /** Reads a whole sequence of chunks, or names the tag of the first one that does not fit. */
  function Walk(s: seq<Byte>): Walked
    decreases |s|
  {
    if |s| < CHUNK_HEADER_SIZE then Complete([], s)
    else if |s| < CHUNK_HEADER_SIZE + U32(s[4..8]) then Cut(U32(s[0..4]))
    else Prepend([Head(s)], Walk(s[Span(s)..]))
  }

  lemma HeadBytes(s: seq<Byte>)
    requires |s| >= CHUNK_HEADER_SIZE && |s| >= CHUNK_HEADER_SIZE + U32(s[4..8])
    ensures RawBytes(Head(s)) == s[..Span(s)]
    ensures Framed(Head(s)) || (FramedWithoutPad(Head(s)) && Span(s) == |s|)
  {
    assert s[0..4] + s[4..8] == s[..8];
  }

  /** Where the four parts of a chunk sit in a longer sequence. */
  lemma Slices(tag: seq<Byte>, size: seq<Byte>, data: seq<Byte>, pad: seq<Byte>, rest: seq<Byte>)
    requires |tag| == 4 && |size| == 4
    ensures var s := tag + size + data + pad + rest;
            && s[0..4] == tag && s[4..8] == size
            && s[8..8 + |data|] == data
            && s[8 + |data|..8 + |data| + |pad|] == pad
            && s[8 + |data| + |pad|..] == rest
  {
  }

  lemma HeadOfLayout(c: RawChunk, rest: seq<Byte>)
    requires Framed(c) || (FramedWithoutPad(c) && rest == [])
    ensures var s := RawBytes(c) + rest;
            && |s| >= CHUNK_HEADER_SIZE && |s| >= CHUNK_HEADER_SIZE + U32(s[4..8])
            && Head(s) == c && s[Span(s)..] == rest
  {
    U32OfLE32(|c.data|);
    U32OfLE32(c.tag);
    Slices(LE32(c.tag), LE32(|c.data|), c.data, c.pad, rest);
  }

  lemma WalkCons(c: RawChunk, rest: seq<Byte>)
    requires Framed(c) || (FramedWithoutPad(c) && rest == [])
    ensures Walk(RawBytes(c) + rest) == Prepend([c], Walk(rest))
  {
    HeadOfLayout(c, rest);
  }

  lemma PrependTwice(cs: seq<RawChunk>, ds: seq<RawChunk>, w: Walked)
    ensures Prepend(cs, Prepend(ds, w)) == Prepend(cs + ds, w)
  {
    if w.Complete? {
      assert cs + (ds + w.chunks) == cs + ds + w.chunks;
    }
  }

  /** Reading what was laid out: complete chunks come off the front one for one. */
  lemma {:induction false} WalkLayout(cs: seq<RawChunk>, rest: seq<Byte>)
    requires AllFramed(cs)
    ensures Walk(Layout(cs) + rest) == Prepend(cs, Walk(rest))
    decreases |cs|
  {
    if cs == [] {
      assert Layout(cs) + rest == rest;
      assert forall ds: seq<RawChunk> :: cs + ds == ds;
    } else {
      var more := Layout(cs[1..]) + rest;
      assert Layout(cs) + rest == RawBytes(cs[0]) + more;
      WalkCons(cs[0], more);
      WalkLayout(cs[1..], rest);
      PrependTwice([cs[0]], cs[1..], Walk(rest));
      assert [cs[0]] + cs[1..] == cs;
    }
  }

  lemma LayoutSplit(cs: seq<RawChunk>, ds: seq<RawChunk>)
    ensures Layout(cs + ds) == Layout(cs) + Layout(ds)
    decreases |cs|
  {
    if cs == [] {
      assert cs + ds == ds;
    } else {
      assert (cs + ds)[1..] == cs[1..] + ds;
      LayoutSplit(cs[1..], ds);
    }
  }

  /** Walk accepts every well-laid file and returns exactly the chunks it was laid out from. */
  lemma WalkAccepts(cs: seq<RawChunk>, tail: seq<Byte>)
    requires WellLaid(cs, tail)
    ensures Walk(Layout(cs) + tail) == Complete(cs, tail)
  {
    if AllFramed(cs) {
      WalkLayout(cs, tail);
      assert cs + [] == cs;
    } else {
      var n := |cs| - 1;
      var last := cs[n];
      assert cs == cs[..n] + [last];
      LayoutSplit(cs[..n], [last]);
      assert Layout([last]) == RawBytes(last);
      assert Layout(cs) + tail == Layout(cs[..n]) + RawBytes(last);
      WalkLayout(cs[..n], RawBytes(last));
      WalkCons(last, []);
      assert RawBytes(last) + [] == RawBytes(last);
    }
  }

  lemma WellLaidCons(c: RawChunk, cs: seq<RawChunk>, tail: seq<Byte>)
    requires WellLaid(cs, tail)
    requires Framed(c) || (FramedWithoutPad(c) && cs == [] && tail == [])
    ensures WellLaid([c] + cs, tail)
  {
    var ds := [c] + cs;
    if Framed(c) {
      if !AllFramed(cs) {
        assert ds[..|ds| - 1] == [c] + cs[..|cs| - 1];
      }
    } else {
      assert ds[..0] == [];
    }
  }

  lemma LayoutCons(c: RawChunk, cs: seq<RawChunk>, tail: seq<Byte>)
    ensures Layout([c] + cs) + tail == RawBytes(c) + (Layout(cs) + tail)
  {
    assert ([c] + cs)[1..] == cs;
  }

  /** Whatever Walk accepts is well laid, and printing it back gives every byte of the input. */
  lemma {:induction false} WalkReads(s: seq<Byte>)
    requires Walk(s).Complete?
    ensures WellLaid(Walk(s).chunks, Walk(s).tail)
    ensures Layout(Walk(s).chunks) + Walk(s).tail == s
    decreases |s|
  {
    if |s| >= CHUNK_HEADER_SIZE {
      var n := Span(s);
      HeadBytes(s);
      WalkReads(s[n..]);
      ReadBefore(s, n, Head(s), Walk(s[n..]));
    }
  }

  /** One chunk in front of what has been read. */
  lemma ReadBefore(s: seq<Byte>, n: nat, c: RawChunk, w: Walked)
    requires n <= |s| && RawBytes(c) == s[..n] && w.Complete?
    requires Framed(c) || (FramedWithoutPad(c) && w.chunks == [] && w.tail == [])
    requires WellLaid(w.chunks, w.tail) && Layout(w.chunks) + w.tail == s[n..]
    ensures WellLaid(Prepend([c], w).chunks, Prepend([c], w).tail)
    ensures Layout(Prepend([c], w).chunks) + Prepend([c], w).tail == s
  {
    WellLaidCons(c, w.chunks, w.tail);
    LayoutCons(c, w.chunks, w.tail);
    assert s == s[..n] + s[n..];
  }

  /** What does not fit: after some whole chunks, a header that declares more bytes than there are. */
  ghost predicate CutAfter(s: seq<Byte>, cs: seq<RawChunk>, rest: seq<Byte>, tag: FourCC) {
    && AllFramed(cs) && s == Layout(cs) + rest
    && |rest| >= 8 && U32(rest[0..4]) == tag && |rest| < 8 + U32(rest[4..8])
  }

  lemma {:induction false} CutReads(s: seq<Byte>) returns (cs: seq<RawChunk>, rest: seq<Byte>)
    requires Walk(s).Cut?
    ensures CutAfter(s, cs, rest, Walk(s).tag)
    decreases |s|
  {
    if |s| < CHUNK_HEADER_SIZE + U32(s[4..8]) {
      cs, rest := [], s;
      assert Layout(cs) + rest == s;
    } else {
      var more := s[Span(s)..];
      HeadBytes(s);
      var ds;
      ds, rest := CutReads(more);
      assert more != [];
      cs := [Head(s)] + ds;
      LayoutCons(Head(s), ds, rest);
      assert s == s[..Span(s)] + more;
    }
  }

  /** The reader names the tag of the first chunk that does not fit, and refuses only then. */
  lemma WalkCutIff(s: seq<Byte>, tag: FourCC)
    ensures Walk(s) == Cut(tag) <==> exists cs, rest :: CutAfter(s, cs, rest, tag)
  {
    if Walk(s) == Cut(tag) {
      var cs, rest := CutReads(s);
    }
    if cs, rest :| CutAfter(s, cs, rest, tag) {
      WalkLayout(cs, rest);
    }
  }

  /** The grammar and the reader agree exactly. */
  lemma WalkExact(s: seq<Byte>, cs: seq<RawChunk>, tail: seq<Byte>)
    ensures Walk(s) == Complete(cs, tail) <==> WellLaid(cs, tail) && s == Layout(cs) + tail
  {
    if Walk(s) == Complete(cs, tail) {
      WalkReads(s);
    }
    if WellLaid(cs, tail) {
      WalkAccepts(cs, tail);
    }
  }

  // ---------------------------------------------------------------------
  // Parsing
  // ---------------------------------------------------------------------

  function ZeroPad(n: nat): (r: seq<Byte>)
    ensures |r| == n % 2
  {
    if n % 2 == 1 then [0] else []
  }

  /** writeChunk: tag, 32-bit length, data, and a zero pad byte after odd data. */
  function ChunkBytes(tag: FourCC, data: seq<Byte>): seq<Byte> {
    LE32(tag) + LE32(|data|) + data + ZeroPad(|data|)
  }

  /** The parser's private copies: every chunk but EXIF, with its pad byte zeroed. */
  function Keep(cs: seq<RawChunk>): seq<seq<Byte>> {
    if cs == [] then []
    else (if cs[0].tag == EXIF then [] else [ChunkBytes(cs[0].tag, cs[0].data)]) + Keep(cs[1..])
  }

  function Tag(c: seq<Byte>): FourCC
    requires |c| >= 4
  {
    U32(c[0..4])
  }

  predicate WellFormed(c: seq<Byte>) {
    && |c| >= CHUNK_HEADER_SIZE
    && |c| == CHUNK_HEADER_SIZE + U32(c[4..8]) + U32(c[4..8]) % 2
    && (U32(c[4..8]) % 2 == 1 ==> c[|c| - 1] == 0)
  }

  /** The chunks the assembler may be given: whole chunks, none of them EXIF. */
  predicate Editable(chunks: seq<seq<Byte>>) {
    forall i :: 0 <= i < |chunks| ==> WellFormed(chunks[i]) && Tag(chunks[i]) != EXIF
  }

  predicate IsCanvas(c: seq<Byte>) {
    |c| >= CHUNK_HEADER_SIZE && Tag(c) == VP8X && U32(c[4..8]) >= VP8X_PAYLOAD_SIZE
  }

  /** Index of the last VP8X chunk of at least ten payload bytes, or -1. */
  function LastCanvas(chunks: seq<seq<Byte>>): int {
    if chunks == [] then -1
    else if IsCanvas(chunks[|chunks| - 1]) then |chunks| - 1
    else LastCanvas(chunks[..|chunks| - 1])
  }

  ghost predicate IsLastCanvas(chunks: seq<seq<Byte>>, r: int) {
    && -1 <= r < |chunks|
    && (r >= 0 ==> IsCanvas(chunks[r]))
    && forall j :: r < j < |chunks| ==> !IsCanvas(chunks[j])
  }

  lemma {:induction false} LastCanvasIs(chunks: seq<seq<Byte>>)
    ensures IsLastCanvas(chunks, LastCanvas(chunks))
    decreases |chunks|
  {
    if chunks != [] {
      LastCanvasIs(chunks[..|chunks| - 1]);
    }
  }

  function Body(file: seq<Byte>): seq<Byte> {
    if |file| < RIFF_HEADER_SIZE then [] else file[RIFF_HEADER_SIZE..]
  }

  function Parse(file: seq<Byte>): Result<Parsed> {
    match Walk(Body(file))
    case Complete(cs, _) => Ok(Parsed(Keep(cs), LastCanvas(Keep(cs))))
    case Cut(tag) => Err(Truncated(tag))
  }

  lemma KeepSplit(cs: seq<RawChunk>, ds: seq<RawChunk>)
    ensures Keep(cs + ds) == Keep(cs) + Keep(ds)
    decreases |cs|
  {
    if cs == [] {
      assert cs + ds == ds;
    } else {
      assert (cs + ds)[1..] == cs[1..] + ds;
      KeepSplit(cs[1..], ds);
    }
  }

  /** Together with KeepSplit this says what Keep is: every non-EXIF chunk, in order, zero padded. */
  lemma KeepOne(c: RawChunk)
    ensures Keep([c]) == if c.tag == EXIF then [] else [LE32(c.tag) + LE32(|c.data|) + c.data + ZeroPad(|c.data|)]
  {
    assert [c][1..] == [];
  }

  lemma ChunkBytesWellFormed(tag: FourCC, data: seq<Byte>)
    requires tag < 0x1_0000_0000 && |data| < 0x1_0000_0000
    ensures WellFormed(ChunkBytes(tag, data))
    ensures Tag(ChunkBytes(tag, data)) == tag
    ensures U32(ChunkBytes(tag, data)[4..8]) == |data|
  {
    U32OfLE32(|data|);
    U32OfLE32(tag);
    Slices(LE32(tag), LE32(|data|), data, ZeroPad(|data|), []);
    assert ChunkBytes(tag, data) + [] == ChunkBytes(tag, data);
  }

  predicate Sized(c: RawChunk) {
    c.tag < 0x1_0000_0000 && |c.data| < 0x1_0000_0000
  }

  lemma WellLaidSized(cs: seq<RawChunk>, tail: seq<Byte>)
    requires WellLaid(cs, tail)
    ensures forall c <- cs :: Sized(c)
  {
    if !AllFramed(cs) {
      assert cs == cs[..|cs| - 1] + [cs[|cs| - 1]];
    }
  }

  lemma {:induction false} KeepEditable(cs: seq<RawChunk>)
    requires forall c <- cs :: Sized(c)
    ensures Editable(Keep(cs))
    decreases |cs|
  {
    if cs != [] {
      assert Sized(cs[0]);
      ChunkBytesWellFormed(cs[0].tag, cs[0].data);
      KeepEditable(cs[1..]);
    }
  }

  /** Everything the parser returns is a whole, zero-padded, non-EXIF chunk. */
  lemma ParseYieldsEditable(file: seq<Byte>)
    requires Parse(file).Ok?
    ensures Editable(Parse(file).value.chunks)
  {
    var s := Body(file);
    WalkReads(s);
    WellLaidSized(Walk(s).chunks, Walk(s).tail);
    KeepEditable(Walk(s).chunks);
  }

  lemma LastCanvasSnoc(chunks: seq<seq<Byte>>, c: seq<Byte>)
    ensures LastCanvas(chunks + [c]) == if IsCanvas(c) then |chunks| else LastCanvas(chunks)
  {
    assert (chunks + [c])[..|chunks|] == chunks;
  }

  function From(file: seq<Byte>, pos: nat): seq<Byte> {
    if pos <= |file| then file[pos..] else []
  }

  /** What is left after a chunk whose pad byte may be missing at the end of the file. */
  lemma RestAt(file: seq<Byte>, pos: nat, next: nat, span: nat)
    requires pos + span <= |file| && next >= pos
    requires span == if |file| < next then |file| - pos else next - pos
    ensures From(file, pos)[span..] == From(file, next)
  {
    if |file| < next {
      assert From(file, pos)[span..] == [];
    } else {
      assert file[pos..][next - pos..] == file[next..];
    }
  }

  /** What one turn of the parser loop reads at pos: the chunk c, its private copy, and the next position. */
  lemma ReadAt(file: seq<Byte>, pos: nat, tag: FourCC, size: nat, next: nat, chunk: seq<Byte>) returns (c: RawChunk)
    requires pos + CHUNK_HEADER_SIZE + size <= |file|
    requires tag == U32(file[pos..pos + 4]) && size == U32(file[pos + 4..pos + 8])
    requires next == pos + CHUNK_HEADER_SIZE + size + size % 2
    requires chunk == file[pos..pos + CHUNK_HEADER_SIZE + size] + ZeroPad(size)
    ensures c.tag == tag < 0x1_0000_0000 && |c.data| == size < 0x1_0000_0000
    ensures chunk == ChunkBytes(c.tag, c.data)
    ensures Walk(From(file, pos)) == Prepend([c], Walk(From(file, next)))
  {
    var rest := From(file, pos);
    var end := pos + CHUNK_HEADER_SIZE + size;
    assert rest[4..8] == file[pos + 4..pos + 8] && rest[0..4] == file[pos..pos + 4];
    c := Head(rest);
    RestAt(file, pos, next, Span(rest));
    assert c.data == rest[8..8 + size];
    assert rest[8..8 + size] == file[pos + 8..end];
    ThreeParts(file, pos, end);
  }

  lemma ThreeParts(file: seq<Byte>, pos: nat, end: nat)
    requires pos + 8 <= end <= |file|
    ensures file[pos..end] == file[pos..pos + 4] + file[pos + 4..pos + 8] + file[pos + 8..end]
  {
  }

  lemma KeepSnoc(seen: seq<RawChunk>, c: RawChunk)
    requires Sized(c)
    ensures Keep(seen + [c]) == if c.tag == EXIF then Keep(seen) else Keep(seen) + [ChunkBytes(c.tag, c.data)]
    ensures LastCanvas(Keep(seen + [c])) ==
            if c.tag == VP8X && |c.data| >= VP8X_PAYLOAD_SIZE then |Keep(seen)| else LastCanvas(Keep(seen))
  {
    KeepSplit(seen, [c]);
    var chunk := ChunkBytes(c.tag, c.data);
    assert Keep([c]) == if c.tag == EXIF then [] else [chunk];
    assert Keep(seen) + [] == Keep(seen);
    ChunkBytesWellFormed(c.tag, c.data);
    LastCanvasSnoc(Keep(seen), chunk);
  }

  /** One turn keeps in step with Walk; c is the chunk it reads. */
  lemma ParseTurn(file: seq<Byte>, pos: nat, seen: seq<RawChunk>, tag: FourCC, size: nat, next: nat, chunk: seq<Byte>)
    returns (c: RawChunk)
    requires pos + CHUNK_HEADER_SIZE + size <= |file|
    requires tag == U32(file[pos..pos + 4]) && size == U32(file[pos + 4..pos + 8])
    requires next == pos + CHUNK_HEADER_SIZE + size + size % 2
    requires chunk == file[pos..pos + CHUNK_HEADER_SIZE + size] + ZeroPad(size)
    requires Walk(Body(file)) == Prepend(seen, Walk(From(file, pos)))
    ensures Walk(Body(file)) == Prepend(seen + [c], Walk(From(file, next)))
    ensures Keep(seen + [c]) == (if tag == EXIF then Keep(seen) else Keep(seen) + [chunk])
    ensures LastCanvas(Keep(seen + [c])) ==
            if tag == VP8X && size >= VP8X_PAYLOAD_SIZE then |Keep(seen)| else LastCanvas(Keep(seen))
  {
    c := ReadAt(file, pos, tag, size, next, chunk);
    PrependTwice(seen, [c], Walk(From(file, next)));
    KeepSnoc(seen, c);
  }

  /** parseWebPChunks. */
  method ParseWebPChunks(file: seq<Byte>) returns (r: Result<Parsed>)
    ensures r == Parse(file)
  {
    var vp8xIndex := -1;
    var pos := RIFF_HEADER_SIZE;
    var chunks: seq<seq<Byte>> := [];
    ghost var seen: seq<RawChunk> := [];
    PrependNone(Walk(Body(file)));
    while pos + CHUNK_HEADER_SIZE <= |file|
      invariant Walk(Body(file)) == Prepend(seen, Walk(From(file, pos)))
      invariant chunks == Keep(seen) && vp8xIndex == LastCanvas(Keep(seen))
      decreases |file| - pos
    {
      var tag := U32(file[pos..pos + 4]);
      var size := U32(file[pos + 4..pos + 8]);
      var dataEnd := pos + CHUNK_HEADER_SIZE + size;
      if dataEnd > |file| {
        ParseCut(file, pos, seen);
        return Err(Truncated(tag));
      }
      var pad := size % 2;
      var next := dataEnd + pad;
      var chunk := file[pos..dataEnd] + ZeroPad(size);
      ghost var c := ParseTurn(file, pos, seen, tag, size, next, chunk);
      if tag == VP8X && size >= VP8X_PAYLOAD_SIZE {
        vp8xIndex := |chunks|;
      }
      if tag != EXIF {
        chunks := chunks + [chunk];
      }
      seen := seen + [c];
      pos := next;
    }
    ParseEnd(file, pos, seen);
    return Ok(Parsed(chunks, vp8xIndex));
  }

  lemma ParseCut(file: seq<Byte>, pos: nat, seen: seq<RawChunk>)
    requires pos + CHUNK_HEADER_SIZE <= |file|
    requires pos + CHUNK_HEADER_SIZE + U32(file[pos + 4..pos + 8]) > |file|
    requires Walk(Body(file)) == Prepend(seen, Walk(From(file, pos)))
    ensures Parse(file) == Err(Truncated(U32(file[pos..pos + 4])))
  {
    var rest := From(file, pos);
    assert rest[4..8] == file[pos + 4..pos + 8] && rest[0..4] == file[pos..pos + 4];
  }

  lemma ParseEnd(file: seq<Byte>, pos: nat, seen: seq<RawChunk>)
    requires pos + CHUNK_HEADER_SIZE > |file|
    requires Walk(Body(file)) == Prepend(seen, Walk(From(file, pos)))
    ensures Parse(file) == Ok(Parsed(Keep(seen), LastCanvas(Keep(seen))))
  {
    assert seen + [] == seen;
  }

  lemma PrependNone(w: Walked)
    ensures Prepend([], w) == w
  {
    if w.Complete? {
      assert [] + w.chunks == w.chunks;
    }
  }

  // ---------------------------------------------------------------------
  // The VP8X chunk
  // ---------------------------------------------------------------------

  /** b | 0x08: bit 3 is set, the three bits below it and the four above it stay. */
  function WithExifFlag(b: Byte): (r: Byte)
    ensures r / 8 % 2 == 1 && r % 8 == b % 8 && r / 16 == b / 16
  {
    if b / 8 % 2 == 0 then b + 8 else b
  }

  /** putUint24LE: the low three bytes of v, v being any (possibly negative) int. */
  method PutUint24LE(b: array<Byte>, offset: nat, v: int)
    requires offset + 3 <= b.Length
    modifies b
    ensures b[..] == old(b[..offset]) + LE24(v) + old(b[offset + 3..])
  {
    b[offset] := v % 256;
    b[offset + 1] := v / 256 % 256;
    b[offset + 2] := v / 256 / 256 % 256;
    assert b[offset..offset + 3] == LE24(v);
  }

  function LE24(v: int): (r: seq<Byte>)
    ensures |r| == 3
  {
    [v % 256, v / 256 % 256, v / 256 / 256 % 256]
  }

  function U24(b: seq<Byte>): nat
    requires |b| == 3
  {
    b[0] + 256 * (b[1] + 256 * (b[2] as int))
  }

  lemma U24OfLE24(v: int)
    requires 0 <= v < 0x100_0000
    ensures U24(LE24(v)) == v
  {
  }

  /** A VP8X chunk with only the EXIF feature set, section 2.7 of RFC 9649. */
  function NewCanvas(width: int, height: int): seq<Byte> {
    LE32(VP8X) + LE32(10) + [0x08, 0, 0, 0] + LE24(width - 1) + LE24(height - 1)
  }

  /** Canvas size a VP8X chunk declares. */
  function CanvasSize(c: seq<Byte>): Dims
    requires |c| >= 18
  {
    Dims(U24(c[12..15]) + 1, U24(c[15..18]) + 1)
  }

  method CreateVP8XChunk(width: int, height: int) returns (chunk: seq<Byte>)
    ensures chunk == NewCanvas(width, height)
  {
    var a := new Byte[18](i => 0);
    FourCCBytes();
    LE32Bytes(10, 0, 0, 0);
    a[0], a[1], a[2], a[3] := 0x56, 0x50, 0x38, 0x58;
    a[4] := VP8X_PAYLOAD_SIZE;
    a[VP8X_FLAGS_OFFSET] := 0x08;
    assert a[..12] == LE32(VP8X) + LE32(10) + [0x08, 0, 0, 0];
    PutUint24LE(a, VP8X_WIDTH_OFFSET, width - 1);
    assert a[..15] == LE32(VP8X) + LE32(10) + [0x08, 0, 0, 0] + LE24(width - 1);
    PutUint24LE(a, VP8X_HEIGHT_OFFSET, height - 1);
    chunk := a[..];
  }

  function SetFlag(c: seq<Byte>): seq<Byte>
    requires |c| > VP8X_FLAGS_OFFSET
  {
    c[VP8X_FLAGS_OFFSET := WithExifFlag(c[VP8X_FLAGS_OFFSET])]
  }

  function WithCanvas(p: Parsed, d: Dims): seq<seq<Byte>>
    requires p.vp8xIndex < |p.chunks|
    requires p.vp8xIndex >= 0 ==> |p.chunks[p.vp8xIndex]| > VP8X_FLAGS_OFFSET
  {
    if p.vp8xIndex >= 0 then p.chunks[p.vp8xIndex := SetFlag(p.chunks[p.vp8xIndex])]
    else [NewCanvas(d.width, d.height)] + p.chunks
  }

  /** ensureVP8XWithEXIF. */
  method EnsureVP8XWithEXIF(p: Parsed, d: Dims) returns (chunks: seq<seq<Byte>>)
    requires p.vp8xIndex < |p.chunks|
    requires p.vp8xIndex >= 0 ==> |p.chunks[p.vp8xIndex]| > VP8X_FLAGS_OFFSET
    ensures chunks == WithCanvas(p, d)
  {
    if p.vp8xIndex >= 0 {
      var c := p.chunks[p.vp8xIndex];
      c := c[VP8X_FLAGS_OFFSET := WithExifFlag(c[VP8X_FLAGS_OFFSET])];
      return p.chunks[p.vp8xIndex := c];
    }
    var canvas := CreateVP8XChunk(d.width, d.height);
    return [canvas] + p.chunks;
  }

  // ---------------------------------------------------------------------
  // Assembling
  // ---------------------------------------------------------------------

  function Concat(chunks: seq<seq<Byte>>): seq<Byte> {
    if chunks == [] then [] else chunks[0] + Concat(chunks[1..])
  }

  function Assembled(chunks: seq<seq<Byte>>, exif: seq<Byte>): seq<Byte> {
    var body := Concat(chunks) + ChunkBytes(EXIF, exif);
    LE32(RIFF) + LE32(4 + |body|) + LE32(WEBP) + body
  }

  lemma ConcatSnoc(chunks: seq<seq<Byte>>, c: seq<Byte>)
    ensures Concat(chunks + [c]) == Concat(chunks) + c
    decreases |chunks|
  {
    if chunks == [] {
      assert [c][1..] == [];
      assert Concat([c]) == c + [];
    } else {
      assert (chunks + [c])[1..] == chunks[1..] + [c];
      ConcatSnoc(chunks[1..], c);
    }
  }

  /** writeChunk: tag, size, data and, for an odd size, a zero byte. */
  method WriteChunk(buf: seq<Byte>, tag: FourCC, data: seq<Byte>) returns (out: seq<Byte>)
    ensures out == buf + ChunkBytes(tag, data)
  {
    out := buf + LE32(tag);
    out := out + LE32(|data|);
    out := out + data;
    ghost var parts := LE32(tag) + LE32(|data|) + data;
    assert out == buf + parts;
    if |data| % 2 == 1 {
      out := out + [0];
      assert buf + parts + [0] == buf + (parts + [0]);
    } else {
      assert parts + [] == parts;
    }
  }

  /** assembleWebP: append everything after a zero size field, then patch the field. */
  method AssembleWebP(chunks: seq<seq<Byte>>, exif: seq<Byte>) returns (b: seq<Byte>)
    ensures b == Assembled(chunks, exif)
  {
    var out: seq<Byte> := LE32(RIFF);
    out := out + [0, 0, 0, 0];
    out := out + LE32(WEBP);
    ghost var header := out;
    for i := 0 to |chunks|
      invariant out == header + Concat(chunks[..i])
    {
      out := out + chunks[i];
      ConcatSnoc(chunks[..i], chunks[i]);
      assert chunks[..i] + [chunks[i]] == chunks[..i + 1];
    }
    assert chunks[..|chunks|] == chunks;
    out := WriteChunk(out, EXIF, exif);
    ghost var body := Concat(chunks) + ChunkBytes(EXIF, exif);
    Joined(header, Concat(chunks), ChunkBytes(EXIF, exif));
    PatchedField(LE32(RIFF), [0, 0, 0, 0], LE32(WEBP), body, LE32(4 + |body|));
    b := out[..4] + LE32(|out| - 8) + out[8..];
  }

  lemma Joined(a: seq<Byte>, b: seq<Byte>, c: seq<Byte>)
    ensures a + b + c == a + (b + c)
  {
  }

  /** Overwriting four bytes at offset 4 replaces the second field. */
  lemma PatchedField(a: seq<Byte>, field: seq<Byte>, c: seq<Byte>, body: seq<Byte>, field': seq<Byte>)
    requires |a| == 4 && |field| == 4
    ensures var out := a + field + c + body;
            out[..4] + field' + out[8..] == a + field' + c + body
  {
    var out := a + field + c + body;
    assert out[..4] == a && out[8..] == c + body;
  }

  predicate IsValidWebP(data: seq<Byte>) {
    |data| >= RIFF_HEADER_SIZE && U32(data[0..4]) == RIFF && U32(data[8..12]) == WEBP
  }

  /** injectWebPEXIF; `config` is what image.DecodeConfig returns for `file`. */
  function Inject(file: seq<Byte>, exif: seq<Byte>, config: Option<Dims>): Result<seq<Byte>> {
    if !IsValidWebP(file) then Err(NotWebP)
    else if config.None? then Err(BadConfig)
    else
      match Parse(file)
      case Err(e) => Err(e)
      case Ok(p) => CanvasHasFlags(file); Ok(Assembled(WithCanvas(p, config.value), exif))
  }

  /** The selected VP8X always has a flags byte, so the edit never goes out of bounds. */
  lemma CanvasHasFlags(file: seq<Byte>)
    requires Parse(file).Ok?
    ensures var p := Parse(file).value;
            p.vp8xIndex < |p.chunks| && (p.vp8xIndex >= 0 ==> |p.chunks[p.vp8xIndex]| > VP8X_FLAGS_OFFSET)
  {
    ParseYieldsEditable(file);
    LastCanvasIs(Parse(file).value.chunks);
  }

  /** Each error exactly when: no RIFF/WEBP header, a header but no decodable image, or a chunk that does not fit. */
  lemma InjectFailsIff(file: seq<Byte>, exif: seq<Byte>, config: Option<Dims>, tag: FourCC)
    ensures var r := Inject(file, exif, config);
            var header := |file| >= 12 && file[0..4] == [0x52, 0x49, 0x46, 0x46] && file[8..12] == [0x57, 0x45, 0x42, 0x50];
            && (r == Err(NotWebP) <==> !header)
            && (r == Err(BadConfig) <==> header && config.None?)
            && (r == Err(Truncated(tag)) <==>
                header && config.Some? && exists cs, rest :: CutAfter(file[12..], cs, rest, tag))
  {
    FourCCBytes();
    assert |file| >= 12 ==> (U32(file[0..4]) == RIFF <==> file[0..4] == LE32(RIFF)) by {
      U32OfLE32(RIFF);
    }
    assert |file| >= 12 ==> (U32(file[8..12]) == WEBP <==> file[8..12] == LE32(WEBP)) by {
      U32OfLE32(WEBP);
    }
    if |file| >= 12 {
      WalkCutIff(file[12..], tag);
    }
  }

  method InjectWebPEXIF(file: seq<Byte>, exif: seq<Byte>, config: Option<Dims>) returns (r: Result<seq<Byte>>)
    ensures r == Inject(file, exif, config)
  {
    if !IsValidWebP(file) {
      return Err(NotWebP);
    }
    if config.None? {
      return Err(BadConfig);
    }
    var parsed := ParseWebPChunks(file);
    if parsed.Err? {
      return Err(parsed.error);
    }
    CanvasHasFlags(file);
    var chunks := EnsureVP8XWithEXIF(parsed.value, config.value);
    var out := AssembleWebP(chunks, exif);
    return Ok(out);
  }

  // ---------------------------------------------------------------------
  // The EXIF payload
  // ---------------------------------------------------------------------

  const TIFF_HEADER: seq<Byte> :=
    [0x49, 0x49, 0x2A, 0x00, 0x08, 0x00, 0x00, 0x00, 0x01, 0x00, 0x41, 0x57, 0x07, 0x00]

  /** buildWhatsAppEXIF, after the metadata has been marshalled to JSON. */
  function ExifPayload(json: seq<Byte>): seq<Byte> {
    TIFF_HEADER + LE32(|json|) + [0x16, 0x00, 0x00, 0x00] + json
  }

  /** The bytes are those of a TIFF file whose one directory entry is WhatsApp's tag 0x5741 of type 7 (undefined). */
  method BuildWhatsAppEXIF(json: seq<Byte>) returns (buf: seq<Byte>)
    ensures buf == ExifPayload(json)
    ensures |buf| == 22 + |json| && buf[22..] == json
    ensures buf[0] == buf[1] == 'I' as int && U16(buf[2..4]) == 42 && U16(buf[4..6]) == 8 && U16(buf[6..8]) == 0
    ensures U16(buf[8..10]) == 1 && U16(buf[10..12]) == 0x5741 && U16(buf[12..14]) == 7
    ensures U32(buf[14..18]) == |json| % 0x1_0000_0000
    ensures U16(buf[18..20]) == 22 && U16(buf[20..22]) == 0
  {
    U32OfLE32(|json|);
    buf := TIFF_HEADER;
    buf := buf + LE32(|json|);
    buf := buf + [0x16, 0x00, 0x00, 0x00];
    buf := buf + json;
    assert buf[..14] == TIFF_HEADER && buf[14..18] == LE32(|json|);
    assert buf[18] == 0x16 && buf[19] == buf[20] == buf[21] == 0;
    HeaderFields(buf, TIFF_HEADER);
  }

  lemma HeaderFields(buf: seq<Byte>, header: seq<Byte>)
    requires |buf| >= 14 && buf[..14] == header == TIFF_HEADER
    ensures buf[0] == buf[1] == 0x49 && U16(buf[2..4]) == 42 && U16(buf[4..6]) == 8 && U16(buf[6..8]) == 0
    ensures U16(buf[8..10]) == 1 && U16(buf[10..12]) == 0x5741 && U16(buf[12..14]) == 7
  {
    assert forall i :: 0 <= i < 14 ==> buf[i] == header[i];
    assert header[0] == header[1] == 0x49 && header[2] == 0x2A && header[4] == 8 && header[8] == 1;
    assert header[10] == 0x41 && header[11] == 0x57 && header[12] == 7;
    assert header[3] == header[5] == header[6] == header[7] == header[9] == header[13] == 0;
  }

  function U16(b: seq<Byte>): nat
    requires |b| == 2
  {
    b[0] + 256 * (b[1] as int)
  }

  /** The number of entries in the first directory of a TIFF file, and its first entry. */
  datatype TiffEntry = TiffEntry(entries: nat, tag: nat, kind: nat, value: seq<Byte>)

  /**
    Follows a little-endian TIFF file (TIFF 6.0, section 2) to its first directory
    entry: directory offset at byte 4 of the file; in the directory the number of
    entries, then in the entry the tag, the type, the count at byte 4 and the
    value offset at byte 8.
   */
  function ReadTiff(t: seq<Byte>): Option<TiffEntry> {
    if |t| < 8 || t[..4] != [0x49, 0x49, 0x2A, 0x00] then None
    else
      var dir := U32(t[4..8]);
      if |t| < dir + 14 then None
      else
        var count := U32(t[dir + 6..dir + 10]);
        var offset := U32(t[dir + 10..dir + 14]);
        if |t| < offset + count then None
        else
          Some(TiffEntry(U16(t[dir..dir + 2]), U16(t[dir + 2..dir + 4]), U16(t[dir + 4..dir + 6]),
                         t[offset..offset + count]))
  }
}
