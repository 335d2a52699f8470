/**
 * The frame-delay scan of the explosion GIF (static/js/game.js, analyzeGif and
 * the total-duration sum in loadExplosionGif).
 *
 * The scan walks the GIF89a block structure: the Logical Screen Descriptor's
 * packed byte at offset 10 tells whether a Global Color Table follows;
 * then blocks are read by their first byte: 0x21 introduces an Extension
 * (0xF9 = Graphic Control Extension, whose little-endian delay in hundredths
 * of a second sits at offset + 4), 0x2C an Image Descriptor (packed byte at
 * offset + 9, optional Local Color Table, one LZW-code-size byte, then data
 * sub-blocks), 0x3B the Trailer; any other byte is stepped over. Data of
 * extensions and images is a chain of sub-blocks, each a size byte followed
 * by that many bytes, ended by a size byte of 0.
 *
 * A read past the end of the buffer makes the DataView throw; the model
 * returns `Err(OutOfRange(i))` with the offset that was read.
 */
module GifTiming {
  import opened Wrappers

  datatype GifError = OutOfRange(offset: nat)

  /** What one block contributes: either the trailer, or the offset of the next block and maybe a frame delay. */
  datatype Block = Trailer | Advance(next: nat, frame: Option<nat>)

  const ExtensionIntroducer: bv8 := 0x21
  const GraphicControlLabel: bv8 := 0xF9
  const ImageSeparator: bv8 := 0x2C
  const GifTrailer: bv8 := 0x3B
  /** Delay used when a Graphic Control Extension gives 0. */
  const DefaultDelayMs: nat := 100

  function Pow2(n: nat): (r: nat)
    ensures r >= 1
  {
    if n == 0 then 1 else 2 * Pow2(n - 1)
  }

  /** Byte size of a color table announced by a packed byte: 3 * 2^(size field + 1). */
  function ColorTableSize(packed: bv8): (r: nat)
    ensures r >= 6 && r % 6 == 0
  {
    var k := (packed & 0x07) as nat;
    Pow2(k + 1) * 3
  }

  /** Whether a packed byte has its color-table flag (bit 7) set. */
  predicate HasColorTable(packed: bv8)
  {
    packed & 0x80 != 0
  }

  /** A Graphic Control Extension's delay in milliseconds, with 0 mapped to the default. */
  function GceDelay(lo: bv8, hi: bv8): (d: nat)
    ensures d > 0 && d % 10 == 0
    ensures d == if lo == 0 && hi == 0 then DefaultDelayMs else (lo as nat + 256 * hi as nat) * 10
  {
    var ms := (lo as nat + 256 * hi as nat) * 10;
    if ms == 0 then DefaultDelayMs else ms
  }

  /** Offset of the first block: after the 13-byte header and the Global Color Table, if any. */
  function StartOffset(buf: seq<bv8>): (r: Result<nat, GifError>)
    ensures r.Err? <==> |buf| <= 10
    ensures r.Ok? ==> r.value == if HasColorTable(buf[10]) then 13 + ColorTableSize(buf[10]) else 13
  {
    if |buf| <= 10 then Err(OutOfRange(10))
    else if HasColorTable(buf[10]) then Ok(13 + ColorTableSize(buf[10]))
    else Ok(13)
  }

  /** Offset just past the zero-size sub-block that ends the chain starting at `offset`. */
  function SkipSubBlocks(buf: seq<bv8>, offset: nat): (r: Result<nat, GifError>)
    ensures r.Ok? ==> offset < r.value <= |buf| && buf[r.value - 1] == 0
    decreases |buf| - offset
  {
    if offset >= |buf| then Err(OutOfRange(offset))
    else if buf[offset] == 0 then Ok(offset + 1)
    else SkipSubBlocks(buf, offset + 1 + buf[offset] as nat)
  }

  /** The block that starts at `offset`. */
  function BlockAt(buf: seq<bv8>, offset: nat): (r: Result<Block, GifError>)
    requires offset < |buf|
    ensures r.Ok? && r.value.Trailer? <==> buf[offset] == GifTrailer
    ensures r.Ok? && r.value.Advance? ==> r.value.next > offset
    ensures r.Ok? && r.value.Advance? && r.value.frame.Some? ==>
      offset + 5 < |buf| && buf[offset] == ExtensionIntroducer && buf[offset + 1] == GraphicControlLabel &&
      r.value.frame.value == GceDelay(buf[offset + 4], buf[offset + 5])
    ensures r.Ok? && buf[offset] == ExtensionIntroducer ==>
      offset + 1 < |buf| && (buf[offset + 1] == GraphicControlLabel ==> r.value.frame.Some?)
  {
    var marker := buf[offset];
    if marker == ExtensionIntroducer then
      if offset + 1 >= |buf| then Err(OutOfRange(offset + 1))
      else if buf[offset + 1] == GraphicControlLabel && offset + 5 >= |buf| then Err(OutOfRange(offset + 4))
      else
        var frame := if buf[offset + 1] == GraphicControlLabel
                     then Some(GceDelay(buf[offset + 4], buf[offset + 5])) else None;
        match SkipSubBlocks(buf, offset + 2)
        case Err(e) => Err(e)
        case Ok(next) => Ok(Advance(next, frame))
    else if marker == ImageSeparator then
      if offset + 9 >= |buf| then Err(OutOfRange(offset + 9))
      else
        var afterDescriptor := offset + 10;
        var afterTable := if HasColorTable(buf[offset + 9])
                          then afterDescriptor + ColorTableSize(buf[offset + 9]) else afterDescriptor;
        // one byte of LZW minimum code size, then the image data sub-blocks
        match SkipSubBlocks(buf, afterTable + 1)
        case Err(e) => Err(e)
        case Ok(next) => Ok(Advance(next, None))
    else if marker == GifTrailer then Ok(Trailer)
    else Ok(Advance(offset + 1, None))
  }

  function FrameList(f: Option<nat>): seq<nat>
  {
    match f
    case Some(d) => [d]
    case None => []
  }

  /** `r` with `prefix` in front of its frames; an error stays an error. */
  function Prepend(prefix: seq<nat>, r: Result<seq<nat>, GifError>): Result<seq<nat>, GifError>
  {
    match r
    case Ok(frames) => Ok(prefix + frames)
    case Err(e) => Err(e)
  }

  /** The frame delays of the blocks from `offset` up to the trailer or the end of the buffer. */
  function BlocksFrom(buf: seq<bv8>, offset: nat): Result<seq<nat>, GifError>
    decreases |buf| - offset
  {
    if offset >= |buf| then Ok([])
    else
      match BlockAt(buf, offset)
      case Err(e) => Err(e)
      case Ok(Trailer) => Ok([])
      case Ok(Advance(next, frame)) => Prepend(FrameList(frame), BlocksFrom(buf, next))
  }

  /** The frame delays of a whole GIF file, in file order. */
  function FrameDelays(buf: seq<bv8>): Result<seq<nat>, GifError>
  {
    match StartOffset(buf)
    case Err(e) => Err(e)
    case Ok(start) => BlocksFrom(buf, start)
  }

  /** Every delay the scan reports is a positive whole number of hundredths of a second, in ms. */
  ghost predicate ValidDelays(frames: seq<nat>)
  {
    forall i :: 0 <= i < |frames| ==> frames[i] > 0 && frames[i] % 10 == 0
  }

  lemma {:induction false} BlocksFromDelaysValid(buf: seq<bv8>, offset: nat)
    ensures BlocksFrom(buf, offset).Ok? ==> ValidDelays(BlocksFrom(buf, offset).value)
    decreases |buf| - offset
  {
    if offset < |buf| {
      var b := BlockAt(buf, offset);
      if b.Ok? && b.value.Advance? {
        BlocksFromDelaysValid(buf, b.value.next);
        var rest := BlocksFrom(buf, b.value.next);
        if rest.Ok? {
          var all := FrameList(b.value.frame) + rest.value;
          forall i | 0 <= i < |all|
            ensures all[i] > 0 && all[i] % 10 == 0
          {
            if i >= |FrameList(b.value.frame)| {
              assert all[i] == rest.value[i - |FrameList(b.value.frame)|];
            }
          }
        }
      }
    }
  }

  /** A successful scan reports only positive delays that are multiples of 10 ms. */
  lemma FrameDelaysValid(buf: seq<bv8>)
    ensures FrameDelays(buf).Ok? ==> ValidDelays(FrameDelays(buf).value)
  {
    if StartOffset(buf).Ok? {
      BlocksFromDelaysValid(buf, StartOffset(buf).value);
    }
  }

  /** Total animation length: the sum of the frame delays. */
  function TotalDuration(frames: seq<nat>): nat
  {
    if frames == [] then 0 else frames[0] + TotalDuration(frames[1..])
  }

  lemma {:induction false} TotalDurationAtLeast(frames: seq<nat>)
    requires ValidDelays(frames)
    ensures TotalDuration(frames) >= 10 * |frames|
  {
    if frames != [] {
      assert ValidDelays(frames[1..]) by {
        forall i | 0 <= i < |frames[1..]| ensures frames[1..][i] > 0 && frames[1..][i] % 10 == 0 {
          assert frames[1..][i] == frames[i + 1];
        }
      }
      TotalDurationAtLeast(frames[1..]);
    }
  }

  /** A two-frame file: delays of 5 and 0 hundredths read as 50 ms and the default 100 ms. */
  lemma TwoFrameExample()
    ensures FrameDelays(SampleGif) == Ok([50, 100])
  {
    var g := SampleGif;
    SampleStart();
    SampleFirstFrame();
    SampleFromImage();
    assert [50] + [100] == [50, 100];
    assert BlocksFrom(g, 13) == Ok([50, 100]);
  }

  lemma SampleStart()
    ensures StartOffset(SampleGif) == Ok(13)
  {
  }

  lemma SampleFromImage()
    ensures BlocksFrom(SampleGif, 21) == Ok([100])
  {
    SampleImage();
    SampleTail();
    assert [] + [100] == [100];
  }

  lemma SampleTail()
    ensures BlocksFrom(SampleGif, 36) == Ok([100])
  {
    var g := SampleGif;
    SampleSecondFrame();
    assert BlockAt(g, 44) == Ok(Trailer);
    assert BlocksFrom(g, 44) == Ok([]);
    assert [100] + [] == [100];
  }

  lemma SampleFirstFrame()
    ensures BlockAt(SampleGif, 13) == Ok(Advance(21, Some(50)))
  {
    var g := SampleGif;
    assert g[13] == ExtensionIntroducer && g[14] == GraphicControlLabel;
    assert g[15] == 4 && g[20] == 0;
    assert SkipSubBlocks(g, 20) == Ok(21);
    assert SkipSubBlocks(g, 15) == Ok(21);
    assert GceDelay(g[17], g[18]) == 50;
  }

  lemma SampleImage()
    ensures BlockAt(SampleGif, 21) == Ok(Advance(36, None))
  {
    var g := SampleGif;
    assert SkipSubBlocks(g, 35) == Ok(36);
    assert SkipSubBlocks(g, 32) == Ok(36);
  }

  lemma SampleSecondFrame()
    ensures BlockAt(SampleGif, 36) == Ok(Advance(44, Some(100)))
  {
    var g := SampleGif;
    assert SkipSubBlocks(g, 43) == Ok(44);
    assert SkipSubBlocks(g, 38) == Ok(44);
  }

  /** A small two-frame GIF89a file. */
  const SampleGif: seq<bv8> :=
    [0x47, 0x49, 0x46, 0x38, 0x39, 0x61,          // "GIF89a"
     0x01, 0x00, 0x01, 0x00, 0x00, 0x00, 0x00,    // screen descriptor, no global table
     0x21, 0xF9, 0x04, 0x00, 0x05, 0x00, 0x00, 0x00,  // GCE, delay 5 (offset 13)
     0x2C, 0x00, 0x00, 0x00, 0x00, 0x01, 0x00, 0x01, 0x00, 0x00,  // image descriptor (21)
     0x02, 0x02, 0x44, 0x01, 0x00,                // LZW size, one data sub-block, end (31)
     0x21, 0xF9, 0x04, 0x00, 0x00, 0x00, 0x00, 0x00,  // GCE, delay 0 (36)
     0x3B]                                        // trailer (44)


  lemma PrependAssoc(a: seq<nat>, b: seq<nat>, r: Result<seq<nat>, GifError>)
    ensures Prepend(a, Prepend(b, r)) == Prepend(a + b, r)
  {
    if r.Ok? {
      assert a + (b + r.value) == (a + b) + r.value;
    }
  }

  lemma PrependNothing(r: Result<seq<nat>, GifError>)
    ensures Prepend([], r) == r
  {
    if r.Ok? {
      assert [] + r.value == r.value;
    }
  }

  /** Walks one sub-block chain, as the two `while (true)` loops of the scan do. */
  method SkipDataSubBlocks(buf: seq<bv8>, start: nat) returns (r: Result<nat, GifError>)
    ensures r == SkipSubBlocks(buf, start)
  {
    var offset := start;
    while true
      invariant SkipSubBlocks(buf, offset) == SkipSubBlocks(buf, start)
      decreases |buf| - offset
    {
      if offset >= |buf| {
        return Err(OutOfRange(offset));
      }
      var size := buf[offset];
      offset := offset + 1;
      if size == 0 {
        break;
      }
      offset := offset + size as nat;
    }
    return Ok(offset);
  }

  /** Reads the block at `offset`: the body of the scan's loop for one marker byte. */
  method ReadBlock(buf: seq<bv8>, offset: nat) returns (r: Result<Block, GifError>)
    requires offset < |buf|
    ensures r == BlockAt(buf, offset)
  {
    var marker := buf[offset];
    if marker == ExtensionIntroducer {
      if offset + 1 >= |buf| {
        return Err(OutOfRange(offset + 1));
      }
      var frame: Option<nat> := None;
      if buf[offset + 1] == GraphicControlLabel {
        if offset + 5 >= |buf| {
          return Err(OutOfRange(offset + 4));
        }
        var delay := (buf[offset + 4] as nat + 256 * buf[offset + 5] as nat) * 10;
        frame := Some(if delay == 0 then DefaultDelayMs else delay);
      }
      var skipped := SkipDataSubBlocks(buf, offset + 2);
      if skipped.Err? {
        return Err(skipped.error);
      }
      return Ok(Advance(skipped.value, frame));
    } else if marker == ImageSeparator {
      if offset + 9 >= |buf| {
        return Err(OutOfRange(offset + 9));
      }
      var hasLocalColorTable := HasColorTable(buf[offset + 9]);
      var next := offset + 10;
      if hasLocalColorTable {
        next := next + ColorTableSize(buf[next - 1]);
      }
      next := next + 1;
      var skipped := SkipDataSubBlocks(buf, next);
      if skipped.Err? {
        return Err(skipped.error);
      }
      return Ok(Advance(skipped.value, None));
    } else if marker == GifTrailer {
      return Ok(Trailer);
    } else {
      return Ok(Advance(offset + 1, None));
    }
  }

  /** The scan itself: one delay per Graphic Control Extension, stopping at the trailer. */
  method AnalyzeGif(buf: seq<bv8>) returns (r: Result<seq<nat>, GifError>)
    ensures r == FrameDelays(buf)
  {
    if |buf| <= 10 {
      return Err(OutOfRange(10));
    }
    var offset: nat := 13;
    if HasColorTable(buf[10]) {
      offset := offset + ColorTableSize(buf[10]);
    }
    var frames: seq<nat> := [];
    PrependNothing(BlocksFrom(buf, offset));
    while offset < |buf|
      invariant Prepend(frames, BlocksFrom(buf, offset)) == FrameDelays(buf)
      decreases |buf| - offset
    {
      var block := ReadBlock(buf, offset);
      match block {
        case Err(e) =>
          return Err(e);
        case Ok(Trailer) =>
          break;
        case Ok(Advance(next, frame)) =>
          PrependAssoc(frames, FrameList(frame), BlocksFrom(buf, next));
          frames := frames + FrameList(frame);
          offset := next;
      }
    }
    assert frames + [] == frames;
    return Ok(frames);
  }
}
