/** What the EXIF injector promises, for every file and every payload. */
module WebPProperties {
  import opened Bytes
  import opened Common
  import opened WebP

  // ---------------------------------------------------------------------
  // The parser undoes the assembler
  // ---------------------------------------------------------------------

  function AsRaw(c: seq<Byte>): RawChunk
    requires WellFormed(c)
  {
    var size := U32(c[4..8]);
    RawChunk(Tag(c), c[8..8 + size], c[8 + size..])
  }

  function AsRaws(chunks: seq<seq<Byte>>): seq<RawChunk>
    requires Editable(chunks)
  {
    if chunks == [] then [] else [AsRaw(chunks[0])] + AsRaws(chunks[1..])
  }

  lemma AsRawBytes(c: seq<Byte>)
    requires WellFormed(c)
    ensures Framed(AsRaw(c)) && RawBytes(AsRaw(c)) == c
    ensures ChunkBytes(AsRaw(c).tag, AsRaw(c).data) == c
  {
    var size := U32(c[4..8]);
    assert c == c[0..4] + c[4..8] + c[8..8 + size] + c[8 + size..];
    assert c[8 + size..] == ZeroPad(size);
  }

  lemma {:induction false} EditableFramed(chunks: seq<seq<Byte>>)
    requires Editable(chunks)
    ensures AllFramed(AsRaws(chunks))
    decreases |chunks|
  {
    if chunks != [] {
      AsRawBytes(chunks[0]);
      EditableFramed(chunks[1..]);
    }
  }

  lemma {:induction false} EditablePrints(chunks: seq<seq<Byte>>)
    requires Editable(chunks)
    ensures Layout(AsRaws(chunks)) == Concat(chunks)
    decreases |chunks|
  {
    if chunks != [] {
      AsRawBytes(chunks[0]);
      EditablePrints(chunks[1..]);
      assert ([AsRaw(chunks[0])] + AsRaws(chunks[1..]))[1..] == AsRaws(chunks[1..]);
    }
  }

  lemma {:induction false} EditableKept(chunks: seq<seq<Byte>>)
    requires Editable(chunks)
    ensures Keep(AsRaws(chunks)) == chunks
    decreases |chunks|
  {
    if chunks != [] {
      AsRawBytes(chunks[0]);
      EditableKept(chunks[1..]);
      assert ([AsRaw(chunks[0])] + AsRaws(chunks[1..]))[1..] == AsRaws(chunks[1..]);
      assert chunks == [chunks[0]] + chunks[1..];
    }
  }

  lemma EditableLayout(chunks: seq<seq<Byte>>)
    requires Editable(chunks)
    ensures AllFramed(AsRaws(chunks))
    ensures Layout(AsRaws(chunks)) == Concat(chunks)
    ensures Keep(AsRaws(chunks)) == chunks
  {
    EditableFramed(chunks);
    EditablePrints(chunks);
    EditableKept(chunks);
  }

  function ExifRaw(exif: seq<Byte>): RawChunk {
    RawChunk(EXIF, exif, ZeroPad(|exif|))
  }

  lemma BodyOfAssembled(chunks: seq<seq<Byte>>, exif: seq<Byte>)
    ensures Body(Assembled(chunks, exif)) == Concat(chunks) + ChunkBytes(EXIF, exif)
    ensures IsValidWebP(Assembled(chunks, exif))
  {
    var body := Concat(chunks) + ChunkBytes(EXIF, exif);
    var size := LE32(4 + |body|);
    var out := LE32(RIFF) + size + LE32(WEBP) + body;
    U32OfLE32(RIFF);
    U32OfLE32(WEBP);
    assert out[0..4] == LE32(RIFF) && out[8..12] == LE32(WEBP) && out[12..] == body;
  }

  /** An assembled file walks back to the chunks it was made from and then one EXIF chunk. */
  lemma WalkAssembled(chunks: seq<seq<Byte>>, exif: seq<Byte>)
    requires Editable(chunks) && |exif| < 0x1_0000_0000
    ensures Walk(Body(Assembled(chunks, exif))) == Complete(AsRaws(chunks) + [ExifRaw(exif)], [])
  {
    var rs := AsRaws(chunks);
    var e := ExifRaw(exif);
    EditableLayout(chunks);
    LayoutSplit(rs, [e]);
    assert Layout([e]) == RawBytes(e);
    BodyOfAssembled(chunks, exif);
    assert Layout(rs + [e]) + [] == Body(Assembled(chunks, exif));
    WalkAccepts(rs + [e], []);
  }

  lemma KeepOfAssembled(chunks: seq<seq<Byte>>, exif: seq<Byte>)
    requires Editable(chunks)
    ensures Keep(AsRaws(chunks) + [ExifRaw(exif)]) == chunks
  {
    EditableLayout(chunks);
    KeepSplit(AsRaws(chunks), [ExifRaw(exif)]);
    assert Keep([ExifRaw(exif)]) == [];
  }

  lemma ParseAssembled(chunks: seq<seq<Byte>>, exif: seq<Byte>)
    requires Editable(chunks) && |exif| < 0x1_0000_0000
    ensures Parse(Assembled(chunks, exif)) == Ok(Parsed(chunks, LastCanvas(chunks)))
  {
    WalkAssembled(chunks, exif);
    KeepOfAssembled(chunks, exif);
  }

  // ---------------------------------------------------------------------
  // The edit itself
  // ---------------------------------------------------------------------

  lemma NewCanvasShape(width: int, height: int)
    ensures var c := NewCanvas(width, height);
            && |c| == 18 && WellFormed(c) && IsCanvas(c) && Tag(c) != EXIF
            && c[8] == 0x08 && c[9..12] == [0, 0, 0]
            && c[12..15] == LE24(width - 1) && c[15..18] == LE24(height - 1)
  {
    var w, h, size := LE24(width - 1), LE24(height - 1), LE32(10);
    assert U32(size) == 10 by { U32OfLE32(10); }
    U32OfLE32(VP8X);
    var c := LE32(VP8X) + size + [0x08, 0, 0, 0] + w + h;
    assert c[0..4] == LE32(VP8X) && c[4..8] == size;
    assert c[9..12] == [0, 0, 0];
  }

  lemma SetFlagShape(c: seq<Byte>)
    requires WellFormed(c) && IsCanvas(c)
    ensures WellFormed(SetFlag(c)) && IsCanvas(SetFlag(c))
    ensures Tag(SetFlag(c)) != EXIF && SetFlag(SetFlag(c)) == SetFlag(c)
  {
    assert SetFlag(c)[4..8] == c[4..8] && SetFlag(c)[0..4] == c[0..4];
  }

  /** The state every injection leaves: the last canvas exists and carries the flag. */
  ghost predicate Flagged(chunks: seq<seq<Byte>>) {
    && Editable(chunks)
    && 0 <= LastCanvas(chunks) < |chunks|
    && |chunks[LastCanvas(chunks)]| > VP8X_FLAGS_OFFSET
    && SetFlag(chunks[LastCanvas(chunks)]) == chunks[LastCanvas(chunks)]
  }

  lemma LastCanvasUnique(chunks: seq<seq<Byte>>, r: int)
    requires IsLastCanvas(chunks, r)
    ensures LastCanvas(chunks) == r
  {
    LastCanvasIs(chunks);
  }

  lemma WithCanvasFlags(p: Parsed, d: Dims)
    requires Editable(p.chunks) && p.vp8xIndex == LastCanvas(p.chunks)
    ensures p.vp8xIndex < |p.chunks| && (p.vp8xIndex >= 0 ==> |p.chunks[p.vp8xIndex]| > VP8X_FLAGS_OFFSET)
    ensures Flagged(WithCanvas(p, d))
    ensures LastCanvas(WithCanvas(p, d)) == if p.vp8xIndex >= 0 then p.vp8xIndex else 0
  {
    LastCanvasIs(p.chunks);
    var i := p.vp8xIndex;
    if i >= 0 {
      SetFlagShape(p.chunks[i]);
      LastCanvasUnique(WithCanvas(p, d), i);
    } else {
      NewCanvasShape(d.width, d.height);
      LastCanvasUnique(WithCanvas(p, d), 0);
    }
  }

  lemma Injected(file: seq<Byte>, exif: seq<Byte>, config: Option<Dims>)
    requires Inject(file, exif, config).Ok?
    ensures config.Some? && Parse(file).Ok?
    ensures var p := Parse(file).value;
            && Editable(p.chunks) && p.vp8xIndex == LastCanvas(p.chunks)
            && p.vp8xIndex < |p.chunks| && (p.vp8xIndex >= 0 ==> |p.chunks[p.vp8xIndex]| > VP8X_FLAGS_OFFSET)
            && Flagged(WithCanvas(p, config.value))
            && Inject(file, exif, config).value == Assembled(WithCanvas(p, config.value), exif)
  {
    ParseYieldsEditable(file);
    WithCanvasFlags(Parse(file).value, config.value);
  }

  // ---------------------------------------------------------------------
  // Only the intended bytes change
  // ---------------------------------------------------------------------

  /** Same chunk except that bit 3 of the flags byte is now set. */
  ghost predicate OnlyFlagSet(before: seq<Byte>, after: seq<Byte>) {
    && |after| == |before| > VP8X_FLAGS_OFFSET
    && (forall k :: 0 <= k < |before| && k != VP8X_FLAGS_OFFSET ==> after[k] == before[k])
    && after[VP8X_FLAGS_OFFSET] / 8 % 2 == 1
    && after[VP8X_FLAGS_OFFSET] % 8 == before[VP8X_FLAGS_OFFSET] % 8
    && after[VP8X_FLAGS_OFFSET] / 16 == before[VP8X_FLAGS_OFFSET] / 16
  }

  /** A fresh VP8X chunk: only the EXIF feature, reserved bytes zero, the given canvas. */
  ghost predicate FreshCanvas(c: seq<Byte>, d: Dims) {
    && |c| == 18 && Tag(c) == VP8X && U32(c[4..8]) == VP8X_PAYLOAD_SIZE
    && c[8] == 0x08 && c[9..12] == [0, 0, 0]
    && (1 <= d.width <= 0x100_0000 && 1 <= d.height <= 0x100_0000 ==> CanvasSize(c) == d)
  }

  /** How the chunks of the result relate to the chunks of the input. */
  ghost predicate Edited(before: Parsed, after: Parsed, d: Dims) {
    if before.vp8xIndex >= 0 then
      && after.vp8xIndex == before.vp8xIndex < |before.chunks| == |after.chunks|
      && OnlyFlagSet(before.chunks[before.vp8xIndex], after.chunks[before.vp8xIndex])
      && forall j :: 0 <= j < |before.chunks| && j != before.vp8xIndex ==> after.chunks[j] == before.chunks[j]
    else
      && after.vp8xIndex == 0 < |after.chunks|
      && FreshCanvas(after.chunks[0], d)
      && after.chunks[1..] == before.chunks
  }

  lemma FreshCanvasShape(d: Dims)
    ensures FreshCanvas(NewCanvas(d.width, d.height), d)
  {
    var c := NewCanvas(d.width, d.height);
    NewCanvasShape(d.width, d.height);
    if 1 <= d.width <= 0x100_0000 && 1 <= d.height <= 0x100_0000 {
      U24OfLE24(d.width - 1);
      U24OfLE24(d.height - 1);
    }
  }

  lemma InjectChangesOnlyFlag(file: seq<Byte>, exif: seq<Byte>, config: Option<Dims>)
    requires Inject(file, exif, config).Ok? && |exif| < 0x1_0000_0000
    ensures config.Some? && Parse(file).Ok?
    ensures var out := Inject(file, exif, config).value;
            Parse(out).Ok? && Edited(Parse(file).value, Parse(out).value, config.value)
  {
    Injected(file, exif, config);
    var p := Parse(file).value;
    var chunks := WithCanvas(p, config.value);
    ParseAssembled(chunks, exif);
    WithCanvasFlags(p, config.value);
    if p.vp8xIndex >= 0 {
      LastCanvasIs(p.chunks);
      assert OnlyFlagSet(p.chunks[p.vp8xIndex], chunks[p.vp8xIndex]);
    } else {
      FreshCanvasShape(config.value);
      assert chunks[1..] == p.chunks;
    }
  }

  lemma {:induction false} ConcatEven(chunks: seq<seq<Byte>>)
    requires Editable(chunks)
    ensures |Concat(chunks)| % 2 == 0
    decreases |chunks|
  {
    if chunks != [] {
      assert WellFormed(chunks[0]);
      ConcatEven(chunks[1..]);
    }
  }

  lemma ChunkEven(tag: FourCC, data: seq<Byte>)
    ensures |ChunkBytes(tag, data)| % 2 == 0
  {
    assert |ChunkBytes(tag, data)| == 8 + |data| + |data| % 2;
  }

  lemma AssembledLength(chunks: seq<seq<Byte>>, exif: seq<Byte>)
    ensures |Assembled(chunks, exif)| == 12 + |Concat(chunks)| + |ChunkBytes(EXIF, exif)|
  {
  }

  lemma SizeField(chunks: seq<seq<Byte>>, exif: seq<Byte>)
    ensures var out := Assembled(chunks, exif);
            U32(out[4..8]) == (|out| - 8) % 0x1_0000_0000
  {
    var body := Concat(chunks) + ChunkBytes(EXIF, exif);
    var size := LE32(4 + |body|);
    assert (LE32(RIFF) + size + LE32(WEBP) + body)[4..8] == size;
    U32OfLE32(4 + |body|);
  }

  lemma AssembledSizes(chunks: seq<seq<Byte>>, exif: seq<Byte>)
    requires Editable(chunks)
    ensures var out := Assembled(chunks, exif);
            |out| % 2 == 0 && IsValidWebP(out) && U32(out[4..8]) == (|out| - 8) % 0x1_0000_0000
  {
    ConcatEven(chunks);
    ChunkEven(EXIF, exif);
    AssembledLength(chunks, exif);
    BodyOfAssembled(chunks, exif);
    SizeField(chunks, exif);
  }

  /** Every result has even length, and its RIFF size field is right as far as 32 bits reach. */
  lemma InjectSizes(file: seq<Byte>, exif: seq<Byte>, config: Option<Dims>)
    requires Inject(file, exif, config).Ok?
    ensures var out := Inject(file, exif, config).value;
            |out| % 2 == 0 && IsValidWebP(out) && U32(out[4..8]) == (|out| - 8) % 0x1_0000_0000
  {
    Injected(file, exif, config);
    AssembledSizes(WithCanvas(Parse(file).value, config.value), exif);
  }

  // ---------------------------------------------------------------------
  // The metadata can be read back
  // ---------------------------------------------------------------------

  lemma {:induction false} EditableHasNoExif(chunks: seq<seq<Byte>>)
    requires Editable(chunks)
    ensures |AsRaws(chunks)| == |chunks|
    ensures forall i :: 0 <= i < |chunks| ==> AsRaws(chunks)[i].tag != EXIF
    decreases |chunks|
  {
    if chunks != [] {
      assert Tag(chunks[0]) != EXIF;
      EditableHasNoExif(chunks[1..]);
    }
  }

  /** A file whose last chunk, and no other, is tagged EXIF, and that ends with that chunk. */
  ghost predicate ExifIsLastOnly(w: Walked) {
    && w.Complete? && w.tail == [] && |w.chunks| > 0
    && w.chunks[|w.chunks| - 1].tag == EXIF
    && forall i :: 0 <= i < |w.chunks| - 1 ==> w.chunks[i].tag != EXIF
  }

  /** The payload is a TIFF file with one entry, WhatsApp's tag 0x5741 of type 7, whose value is the JSON. */
  lemma FollowEntry(json: seq<Byte>)
    requires |json| + 22 < 0x1_0000_0000
    ensures ReadTiff(ExifPayload(json)) == Some(TiffEntry(1, 0x5741, 7, json))
  {
    var t := ExifPayload(json);
    var count := LE32(|json|);
    U32OfLE32(|json|);
    assert t[..4] == [0x49, 0x49, 0x2A, 0x00];
    assert U32(t[4..8]) == 8 by { U32IsPositional(t[4..8]); }
    assert t[14..18] == count;
    assert U32(t[18..22]) == 22 by { U32IsPositional(t[18..22]); }
    assert t[22..22 + |json|] == json;
  }

  lemma OneExifAtEnd(chunks: seq<seq<Byte>>, exif: seq<Byte>)
    requires Editable(chunks) && |exif| < 0x1_0000_0000
    ensures var w := Walk(Body(Assembled(chunks, exif)));
            ExifIsLastOnly(w) && w.chunks[|w.chunks| - 1].data == exif
  {
    WalkAssembled(chunks, exif);
    EditableHasNoExif(chunks);
  }

  /**
    The result holds exactly one EXIF chunk, it is the last chunk, nothing follows
    it, and following its directory entry gives back exactly the JSON that was
    embedded.
   */
  lemma MetadataReadsBack(file: seq<Byte>, json: seq<Byte>, config: Option<Dims>)
    requires Inject(file, ExifPayload(json), config).Ok?
    requires |json| + 22 < 0x1_0000_0000
    ensures var w := Walk(Body(Inject(file, ExifPayload(json), config).value));
            && ExifIsLastOnly(w)
            && ReadTiff(w.chunks[|w.chunks| - 1].data) == Some(TiffEntry(1, 0x5741, 7, json))
  {
    var exif := ExifPayload(json);
    Injected(file, exif, config);
    OneExifAtEnd(WithCanvas(Parse(file).value, config.value), exif);
    FollowEntry(json);
  }

  // ---------------------------------------------------------------------
  // Injecting again replaces the payload
  // ---------------------------------------------------------------------

  /** Where a reader of the 32-bit length field thinks a payload of n bytes, and its pad byte, end. */
  function WrapEnd(n: nat): (k: nat)
    ensures k <= n + n % 2
    ensures n >= 0x1_0000_0000 ==> k + 8 <= n
  {
    n % 0x1_0000_0000 + n % 2
  }

  /** The bytes of a written payload that lie beyond the end its length field declares. */
  function Spill(e: seq<Byte>): seq<Byte> {
    (e + ZeroPad(|e|))[WrapEnd(|e|)..]
  }

  /** Only payloads of 4 GiB and more spill. */
  lemma SpillIffOversized(e: seq<Byte>)
    ensures Spill(e) == [] <==> |e| < 0x1_0000_0000
    ensures |e| >= 0x1_0000_0000 ==> |Spill(e)| >= CHUNK_HEADER_SIZE
  {
  }

  /** A written payload reads as an EXIF chunk of the wrapped length, followed by what it spills. */
  lemma SpillChunk(e: seq<Byte>) returns (d: RawChunk)
    ensures d.tag == EXIF && Framed(d) && ChunkBytes(EXIF, e) == RawBytes(d) + Spill(e)
  {
    var n := |e| % 0x1_0000_0000;
    var padded := e + ZeroPad(|e|);
    d := RawChunk(EXIF, e[..n], padded[n..n + |e| % 2]);
    assert LE32(|e|) == LE32(n) by {
      U32OfLE32(|e|);
    }
    SplitTwice(padded, n, n + |e| % 2);
    Regrouped(LE32(EXIF), LE32(n), e, ZeroPad(|e|));
    assert padded[..n] == e[..n];
    Reassembled(LE32(EXIF) + LE32(n), padded, d.data, d.pad, Spill(e));
  }

  lemma SplitTwice(s: seq<Byte>, i: nat, j: nat)
    requires i <= j <= |s|
    ensures s == s[..i] + s[i..j] + s[j..]
  {
  }

  lemma Regrouped(a: seq<Byte>, b: seq<Byte>, c: seq<Byte>, d: seq<Byte>)
    ensures a + b + c + d == a + b + (c + d)
  {
  }

  lemma Reassembled(head: seq<Byte>, padded: seq<Byte>, data: seq<Byte>, pad: seq<Byte>, rest: seq<Byte>)
    requires padded == data + pad + rest
    ensures head + padded == head + data + pad + rest
  {
  }

  lemma Assoc(a: seq<Byte>, b: seq<Byte>, c: seq<Byte>)
    ensures a + (b + c) == a + b + c
  {
  }

  lemma SpilledBody(chunks: seq<seq<Byte>>, e: seq<Byte>, d: RawChunk, rest: seq<Byte>)
    requires Editable(chunks) && ChunkBytes(EXIF, e) == RawBytes(d) + rest
    ensures Body(Assembled(chunks, e)) == Layout(AsRaws(chunks) + [d]) + rest
  {
    var rs := AsRaws(chunks);
    EditableLayout(chunks);
    LayoutSplit(rs, [d]);
    assert Layout([d]) == RawBytes(d);
    BodyOfAssembled(chunks, e);
    Assoc(Layout(rs), RawBytes(d), rest);
  }

  lemma SpilledWalk(chunks: seq<seq<Byte>>, e: seq<Byte>, d: RawChunk, rest: seq<Byte>)
    requires Editable(chunks) && Framed(d) && ChunkBytes(EXIF, e) == RawBytes(d) + rest
    ensures Walk(Body(Assembled(chunks, e))) == Prepend(AsRaws(chunks) + [d], Walk(rest))
  {
    SpilledBody(chunks, e, d, rest);
    EditableLayout(chunks);
    WalkLayout(AsRaws(chunks) + [d], rest);
  }

  lemma SpilledKeep(chunks: seq<seq<Byte>>, d: RawChunk, more: seq<RawChunk>)
    requires Editable(chunks) && d.tag == EXIF
    ensures Keep(AsRaws(chunks) + [d] + more) == chunks + Keep(more)
  {
    EditableKept(chunks);
    KeepAround(AsRaws(chunks), d, more);
  }

  lemma KeepAround(rs: seq<RawChunk>, d: RawChunk, more: seq<RawChunk>)
    requires d.tag == EXIF
    ensures Keep(rs + [d] + more) == Keep(rs) + Keep(more)
  {
    KeepDrops(d, more);
    KeepSplit(rs, [d] + more);
    assert rs + [d] + more == rs + ([d] + more);
  }

  lemma KeepDrops(d: RawChunk, more: seq<RawChunk>)
    requires d.tag == EXIF
    ensures Keep([d] + more) == Keep(more)
  {
    assert ([d] + more)[1..] == more;
  }

  /** Parsing an assembled file, whatever the size of its payload: the chunks, and then whatever the spill reads as. */
  lemma ParseSpilled(chunks: seq<seq<Byte>>, e: seq<Byte>)
    requires Editable(chunks)
    ensures var w := Walk(Spill(e));
            Parse(Assembled(chunks, e)) ==
            if w.Cut? then Err(Truncated(w.tag))
            else Ok(Parsed(chunks + Keep(w.chunks), LastCanvas(chunks + Keep(w.chunks))))
  {
    var d := SpillChunk(e);
    SpilledWalk(chunks, e, d, Spill(e));
    var w := Walk(Spill(e));
    if w.Complete? {
      SpilledKeep(chunks, d, w.chunks);
    }
  }

  ghost predicate OnlyExif(cs: seq<RawChunk>) {
    forall c <- cs :: c.tag == EXIF
  }

  lemma {:induction false} KeptBytes(cs: seq<RawChunk>)
    ensures if OnlyExif(cs) then Keep(cs) == [] else |Concat(Keep(cs))| >= 8
    decreases |cs|
  {
    if cs != [] {
      assert cs == [cs[0]] + cs[1..];
      if cs[0].tag == EXIF {
        KeptBytes(cs[1..]);
        assert Keep(cs) == Keep(cs[1..]);
      } else {
        assert Keep(cs)[0] == ChunkBytes(cs[0].tag, cs[0].data);
      }
    }
  }

  lemma ConcatLength(chunks: seq<seq<Byte>>, more: seq<seq<Byte>>)
    ensures |Concat(chunks + more)| == |Concat(chunks)| + |Concat(more)|
    decreases |chunks|
  {
    if chunks == [] {
      assert chunks + more == more;
    } else {
      assert (chunks + more)[1..] == chunks[1..] + more;
      ConcatLength(chunks[1..], more);
    }
  }

  lemma {:induction false} ConcatUpdate(chunks: seq<seq<Byte>>, i: nat, c: seq<Byte>)
    requires i < |chunks| && |c| == |chunks[i]|
    ensures |Concat(chunks[i := c])| == |Concat(chunks)|
    decreases |chunks|
  {
    if i > 0 {
      assert chunks[i := c][1..] == chunks[1..][i - 1 := c];
      ConcatUpdate(chunks[1..], i - 1, c);
    } else {
      assert chunks[0 := c][1..] == chunks[1..];
    }
  }

  lemma EditKeepsLength(p: Parsed, d: Dims)
    requires p.vp8xIndex < |p.chunks| && (p.vp8xIndex >= 0 ==> |p.chunks[p.vp8xIndex]| > VP8X_FLAGS_OFFSET)
    ensures |Concat(WithCanvas(p, d))| >= |Concat(p.chunks)|
  {
    if p.vp8xIndex >= 0 {
      ConcatUpdate(p.chunks, p.vp8xIndex, SetFlag(p.chunks[p.vp8xIndex]));
    } else {
      assert WithCanvas(p, d)[1..] == p.chunks;
    }
  }

  /** Kept chunks out of the spill make the second result longer than it should be. */
  lemma SpillLengthens(chunks: seq<seq<Byte>>, e1: seq<Byte>, e2: seq<Byte>, config2: Option<Dims>)
    requires Editable(chunks) && Walk(Spill(e1)).Complete? && !OnlyExif(Walk(Spill(e1)).chunks)
    ensures var r := Inject(Assembled(chunks, e1), e2, config2);
            r.Ok? ==> |r.value| > |Assembled(chunks, e2)|
  {
    var mid := Assembled(chunks, e1);
    if Inject(mid, e2, config2).Ok? {
      var more := Keep(Walk(Spill(e1)).chunks);
      ParseSpilled(chunks, e1);
      Injected(mid, e2, config2);
      var p := Parse(mid).value;
      KeptBytes(Walk(Spill(e1)).chunks);
      ConcatLength(chunks, more);
      EditKeepsLength(p, config2.value);
      AssembledLength(WithCanvas(p, config2.value), e2);
      AssembledLength(chunks, e2);
    }
  }

  /** Editing an already edited file changes nothing but the payload. */
  lemma Reinjected(chunks: seq<seq<Byte>>, e1: seq<Byte>, e2: seq<Byte>, d: Dims)
    requires Flagged(chunks) && Walk(Spill(e1)).Complete? && OnlyExif(Walk(Spill(e1)).chunks)
    ensures Inject(Assembled(chunks, e1), e2, Some(d)) == Ok(Assembled(chunks, e2))
  {
    var mid := Assembled(chunks, e1);
    BodyOfAssembled(chunks, e1);
    ParseSpilled(chunks, e1);
    KeptBytes(Walk(Spill(e1)).chunks);
    assert chunks + [] == chunks;
    var i := LastCanvas(chunks);
    assert chunks[i := SetFlag(chunks[i])] == chunks;
    assert WithCanvas(Parse(mid).value, d) == chunks;
  }

  /**
    Injecting e2 into the result of injecting e1 is the same, byte for byte, as
    injecting e2 into the original file, exactly when the decoder accepts the
    intermediate file and what e1 spills beyond its 32-bit length, if anything,
    reads as EXIF chunks. `config` and `config2` are what the decoder reports for
    the two files: the intermediate dimensions do not matter.
   */
  lemma OverwritesIff(file: seq<Byte>, e1: seq<Byte>, e2: seq<Byte>, config: Option<Dims>, config2: Option<Dims>)
    requires Inject(file, e1, config).Ok?
    ensures Inject(Inject(file, e1, config).value, e2, config2) == Inject(file, e2, config) <==>
            config2.Some? && Walk(Spill(e1)).Complete? && OnlyExif(Walk(Spill(e1)).chunks)
  {
    Injected(file, e1, config);
    Injected(file, e2, config);
    var chunks := WithCanvas(Parse(file).value, config.value);
    if Walk(Spill(e1)).Cut? {
      ParseSpilled(chunks, e1);
    } else if !OnlyExif(Walk(Spill(e1)).chunks) {
      SpillLengthens(chunks, e1, e2, config2);
    } else if config2.Some? {
      Reinjected(chunks, e1, e2, config2.value);
    }
  }

  /** For every payload under 4 GiB a second injection overwrites the first. */
  lemma InjectOverwrites(file: seq<Byte>, e1: seq<Byte>, e2: seq<Byte>, config: Option<Dims>, config2: Option<Dims>)
    requires Inject(file, e1, config).Ok? && |e1| < 0x1_0000_0000
    ensures Inject(Inject(file, e1, config).value, e2, config2) == Inject(file, e2, config)
            <==> config2.Some?
  {
    SpillIffOversized(e1);
    OverwritesIff(file, e1, e2, config, config2);
  }

  /** A larger one survives, or makes the second injection fail, unless its spill starts by spelling EXIF. */
  lemma OversizedPayloadSurvives(file: seq<Byte>, e1: seq<Byte>, e2: seq<Byte>, config: Option<Dims>, config2: Option<Dims>)
    requires Inject(file, e1, config).Ok? && |e1| >= 0x1_0000_0000
    requires U32(e1[WrapEnd(|e1|)..WrapEnd(|e1|) + 4]) != EXIF
    ensures Inject(Inject(file, e1, config).value, e2, config2) != Inject(file, e2, config)
  {
    var s := Spill(e1);
    SpillIffOversized(e1);
    assert s[0..4] == e1[WrapEnd(|e1|)..WrapEnd(|e1|) + 4];
    if Walk(s).Complete? {
      assert Walk(s).chunks[0] == Head(s);
    }
    OverwritesIff(file, e1, e2, config, config2);
  }
}
