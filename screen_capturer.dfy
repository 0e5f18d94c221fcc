/**
 * ScreenCapturer: turns the newest frame of a virtual display's image reader
 * into tightly packed RGBA bytes. Plane 0's buffer holds `height` rows, each
 * `rowStride` bytes apart, of which the first `width * pixelStride` are
 * pixels and the rest padding. Without padding the buffer is returned as
 * is; otherwise rows are copied one by one into a `width * height * 4`
 * output, which the JVM fills with zeros when it is allocated.
 */
module ScreenCapture {
  import opened Results
  import opened Platform

  /** `rowStride - pixelStride * width`. */
  function RowPadding(width: int, pixelStride: int, rowStride: int): int {
    rowStride - pixelStride * width
  }

  function Zeros(n: nat): (z: seq<bv8>)
    ensures |z| == n && forall i :: 0 <= i < n ==> z[i] == 0
  {
    seq(n, _ => 0)
  }

  /**
   * The first exception row `row` of the copy loop throws, if any:
   * `buffer.position(row * rowStride)` past the limit, then
   * `buffer.get(output, offset, rowBytes)` past the end of `output`, then
   * fewer than `rowBytes` bytes left in the buffer.
   */
  function RowFailure(bufLen: nat, outLen: nat, rowBytes: nat, rowStride: nat, row: nat): Option<Error> {
    if row * rowStride > bufLen then Some(BufferPositionInvalid)
    else if row * rowBytes + rowBytes > outLen then Some(OutputIndexOutOfBounds)
    else if bufLen - row * rowStride < rowBytes then Some(BufferUnderflow)
    else None
  }

  /** The failure of the first failing row in [row, height), if any. */
  function FirstFailure(bufLen: nat, outLen: nat, rowBytes: nat, rowStride: nat, row: nat, height: nat): Option<Error>
    decreases height - row
  {
    if row >= height then None
    else if RowFailure(bufLen, outLen, rowBytes, rowStride, row).Some? then RowFailure(bufLen, outLen, rowBytes, rowStride, row)
    else FirstFailure(bufLen, outLen, rowBytes, rowStride, row + 1, height)
  }

  /** A row fits when it can be read from the buffer and written to the output. */
  predicate RowFits(bufLen: nat, outLen: nat, rowBytes: nat, rowStride: nat, row: nat) {
    row * rowStride + rowBytes <= bufLen && (row + 1) * rowBytes <= outLen
  }

  /** The pixel bytes of rows 0 to height - 1, each row's padding dropped. */
  function Unpadded(buf: seq<bv8>, rowBytes: nat, rowStride: nat, height: nat): (r: seq<bv8>)
    requires height == 0 || (height - 1) * rowStride + rowBytes <= |buf|
  {
    if height == 0 then []
    else
      MulStep(height - 1, rowStride);
      Unpadded(buf, rowBytes, rowStride, height - 1) + buf[(height - 1) * rowStride .. (height - 1) * rowStride + rowBytes]
  }

  lemma MulStep(k: nat, c: nat)
    ensures k * c >= 0
    ensures k >= 1 ==> (k - 1) * c + c == k * c
  {
  }

  lemma MulMono(a: nat, b: nat, c: nat)
    requires a <= b
    ensures a * c <= b * c
  {
  }

  /**
   * `captureVirtualDisplayRaw` on a frame: the buffer itself when rows have
   * no padding; otherwise the first row failure, or the unpadded rows
   * followed by the zeros of the output never written.
   */
  function CaptureRaw(width: nat, height: nat, pixelStride: nat, rowStride: nat, buf: seq<bv8>): Result<seq<bv8>> {
    if RowPadding(width, pixelStride, rowStride) == 0 then Ok(buf)
    else
      MulStep(width, pixelStride);
      var rowBytes := width * pixelStride;
      MulStep(width * height, 4);
      PaddedCopy(buf, rowBytes, rowStride, height, width * height * 4)
  }

  /** The row loop's result: the first failing row's error, or the rows' pixel bytes followed by zeros up to `outLen`. */
  function PaddedCopy(buf: seq<bv8>, rowBytes: nat, rowStride: nat, height: nat, outLen: nat): Result<seq<bv8>> {
    match FirstFailure(|buf|, outLen, rowBytes, rowStride, 0, height)
    case Some(e) => Err(e)
    case None =>
      NoFailureMeansFits(|buf|, outLen, rowBytes, rowStride, height);
      UnpaddedLength(buf, rowBytes, rowStride, height);
      Ok(Unpadded(buf, rowBytes, rowStride, height) + Zeros(outLen - height * rowBytes))
  }

  // ---------------------------------------------------------------- lemmas

  lemma {:induction false} UnpaddedLength(buf: seq<bv8>, rowBytes: nat, rowStride: nat, height: nat)
    requires height == 0 || (height - 1) * rowStride + rowBytes <= |buf|
    ensures |Unpadded(buf, rowBytes, rowStride, height)| == height * rowBytes
  {
    if height > 0 {
      MulStep(height - 1, rowStride);
      UnpaddedLength(buf, rowBytes, rowStride, height - 1);
      MulStep(height, rowBytes);
    }
  }

  /** Byte j of row r of the output is byte j of row r of the buffer: padding never reaches the output. */
  lemma {:induction false} UnpaddedAt(buf: seq<bv8>, rowBytes: nat, rowStride: nat, height: nat, r: nat, j: nat)
    requires height == 0 || (height - 1) * rowStride + rowBytes <= |buf|
    requires r < height && j < rowBytes
    ensures r * rowBytes + j < |Unpadded(buf, rowBytes, rowStride, height)|
    ensures r * rowStride + j < |buf|
    ensures Unpadded(buf, rowBytes, rowStride, height)[r * rowBytes + j] == buf[r * rowStride + j]
  {
    UnpaddedLength(buf, rowBytes, rowStride, height);
    MulStep(height - 1, rowStride);
    UnpaddedLength(buf, rowBytes, rowStride, height - 1);
    MulStep(height, rowBytes);
    MulMono(r, height - 1, rowStride);
    if r < height - 1 {
      UnpaddedAt(buf, rowBytes, rowStride, height - 1, r, j);
      MulMono(r + 1, height - 1, rowBytes);
      MulStep(r + 1, rowBytes);
    }
  }

  /** The rows [row, height) all pass exactly when none of them fails. */
  lemma {:induction false} NoFailureIffAllFit(bufLen: nat, outLen: nat, rowBytes: nat, rowStride: nat, row: nat, height: nat)
    ensures FirstFailure(bufLen, outLen, rowBytes, rowStride, row, height) == None
        <==> forall k :: row <= k < height ==> RowFits(bufLen, outLen, rowBytes, rowStride, k)
    decreases height - row
  {
    if row < height {
      NoFailureIffAllFit(bufLen, outLen, rowBytes, rowStride, row + 1, height);
      RowFailureIffFits(bufLen, outLen, rowBytes, rowStride, row);
    }
  }

  lemma RowFailureIffFits(bufLen: nat, outLen: nat, rowBytes: nat, rowStride: nat, row: nat)
    ensures RowFailure(bufLen, outLen, rowBytes, rowStride, row) == None <==> RowFits(bufLen, outLen, rowBytes, rowStride, row)
  {
    MulStep(row + 1, rowBytes);
    MulStep(row, rowStride);
  }

  /** Rows lie ever further into the buffer and the output, so the last row fitting means all fit. */
  lemma LastRowFitsAll(bufLen: nat, outLen: nat, rowBytes: nat, rowStride: nat, height: nat)
    requires height > 0
    ensures (forall k :: 0 <= k < height ==> RowFits(bufLen, outLen, rowBytes, rowStride, k))
        <==> RowFits(bufLen, outLen, rowBytes, rowStride, height - 1)
  {
    if RowFits(bufLen, outLen, rowBytes, rowStride, height - 1) {
      forall k | 0 <= k < height
        ensures RowFits(bufLen, outLen, rowBytes, rowStride, k)
      {
        MulMono(k, height - 1, rowStride);
        MulMono(k + 1, height, rowBytes);
      }
    }
  }

  lemma NoFailureMeansFits(bufLen: nat, outLen: nat, rowBytes: nat, rowStride: nat, height: nat)
    requires FirstFailure(bufLen, outLen, rowBytes, rowStride, 0, height) == None
    ensures height == 0 || (height - 1) * rowStride + rowBytes <= bufLen
    ensures height * rowBytes <= outLen
  {
    NoFailureIffAllFit(bufLen, outLen, rowBytes, rowStride, 0, height);
    if height > 0 {
      assert RowFits(bufLen, outLen, rowBytes, rowStride, height - 1);
    }
  }

  /** The failure of [start, height) is that of [start, row) if there is one, else that of [row, height). */
  lemma {:induction false} FirstFailureSplit(bufLen: nat, outLen: nat, rowBytes: nat, rowStride: nat, start: nat, row: nat, height: nat)
    requires start <= row <= height
    requires FirstFailure(bufLen, outLen, rowBytes, rowStride, start, row) == None
    ensures FirstFailure(bufLen, outLen, rowBytes, rowStride, start, height) == FirstFailure(bufLen, outLen, rowBytes, rowStride, row, height)
    decreases row - start
  {
    if start < row {
      FirstFailureExtend(bufLen, outLen, rowBytes, rowStride, start, row);
      FirstFailureSplit(bufLen, outLen, rowBytes, rowStride, start + 1, row, height);
    }
  }

  lemma FirstFailureExtend(bufLen: nat, outLen: nat, rowBytes: nat, rowStride: nat, start: nat, row: nat)
    requires start < row
    requires FirstFailure(bufLen, outLen, rowBytes, rowStride, start, row) == None
    ensures RowFailure(bufLen, outLen, rowBytes, rowStride, start) == None
    ensures FirstFailure(bufLen, outLen, rowBytes, rowStride, start + 1, row) == None
  {
  }

  lemma {:induction false} FirstFailureSnoc(bufLen: nat, outLen: nat, rowBytes: nat, rowStride: nat, start: nat, row: nat)
    requires start <= row
    requires FirstFailure(bufLen, outLen, rowBytes, rowStride, start, row) == None
    requires RowFailure(bufLen, outLen, rowBytes, rowStride, row) == None
    ensures FirstFailure(bufLen, outLen, rowBytes, rowStride, start, row + 1) == None
    decreases row - start
  {
    if start < row {
      FirstFailureExtend(bufLen, outLen, rowBytes, rowStride, start, row);
      FirstFailureSnoc(bufLen, outLen, rowBytes, rowStride, start + 1, row);
    }
  }

  /**
   * A padded frame is stripped without error exactly when the last row lies
   * inside the buffer and the pixel bytes fit the `width * height * 4`
   * output, that is, when no pixel has more than four bytes.
   */
  lemma CaptureSucceedsIff(width: nat, height: nat, pixelStride: nat, rowStride: nat, buf: seq<bv8>)
    requires pixelStride > 0
    requires RowPadding(width, pixelStride, rowStride) != 0
    ensures CaptureRaw(width, height, pixelStride, rowStride, buf).Ok?
        <==> height == 0 || ((height - 1) * rowStride + width * pixelStride <= |buf| && (width == 0 || pixelStride <= 4))
  {
    var rowBytes := width * pixelStride;
    var outLen := width * height * 4;
    NoFailureIffAllFit(|buf|, outLen, rowBytes, rowStride, 0, height);
    if height > 0 {
      LastRowFitsAll(|buf|, outLen, rowBytes, rowStride, height);
      assert height * rowBytes == (height * width) * pixelStride;
      assert outLen == (height * width) * 4;
      if width > 0 {
        PixelBytesFit(height * width, pixelStride);
      }
    }
  }

  lemma PixelBytesFit(n: nat, pixelStride: nat)
    requires n > 0
    ensures n * pixelStride <= n * 4 <==> pixelStride <= 4
  {
    if pixelStride > 4 {
      MulMono(5, pixelStride, n);
    } else {
      MulMono(pixelStride, 4, n);
    }
  }

  /** Without padding the output is exactly the bytes remaining in the buffer. */
  lemma NoPaddingCopiesBuffer(width: nat, height: nat, pixelStride: nat, rowStride: nat, buf: seq<bv8>)
    requires rowStride == pixelStride * width
    ensures CaptureRaw(width, height, pixelStride, rowStride, buf) == Ok(buf)
  {
  }

  /**
   * With padding, a successful strip is `width * height * 4` bytes long:
   * the unpadded rows (see `UnpaddedAt`) followed by zeros where narrower
   * pixels leave the output unwritten.
   */
  lemma PaddedCaptureIs(width: nat, height: nat, pixelStride: nat, rowStride: nat, buf: seq<bv8>) returns (u: seq<bv8>)
    requires RowPadding(width, pixelStride, rowStride) != 0
    requires CaptureRaw(width, height, pixelStride, rowStride, buf).Ok?
    ensures height == 0 || (height - 1) * rowStride + width * pixelStride <= |buf|
    ensures u == Unpadded(buf, width * pixelStride, rowStride, height)
    ensures |u| == height * (width * pixelStride) <= width * height * 4
    ensures CaptureRaw(width, height, pixelStride, rowStride, buf).value == u + Zeros(width * height * 4 - |u|)
  {
    var rowBytes := width * pixelStride;
    var outLen := width * height * 4;
    NoFailureMeansFits(|buf|, outLen, rowBytes, rowStride, height);
    u := Unpadded(buf, rowBytes, rowStride, height);
    UnpaddedLength(buf, rowBytes, rowStride, height);
  }

  /** With four-byte pixels the rows cover the whole output: no byte is left at its initial zero by omission. */
  lemma FourBytePixelsFillOutput(width: nat, height: nat, rowStride: nat, buf: seq<bv8>)
    requires RowPadding(width, 4, rowStride) != 0
    requires CaptureRaw(width, height, 4, rowStride, buf).Ok?
    ensures height == 0 || (height - 1) * rowStride + width * 4 <= |buf|
    ensures CaptureRaw(width, height, 4, rowStride, buf).value == Unpadded(buf, width * 4, rowStride, height)
  {
    var u := PaddedCaptureIs(width, height, 4, rowStride, buf);
    RowsTimesWidth(width, height);
    assert u + Zeros(0) == u;
  }

  lemma RowsTimesWidth(width: nat, height: nat)
    ensures height * (width * 4) == width * height * 4
  {
  }

  /** A 2x2 frame of 4-byte pixels with 4 padding bytes per row loses exactly the padding. */
  lemma PaddedExample()
    ensures CaptureRaw(2, 2, 4, 12, [1, 2, 3, 4, 5, 6, 7, 8, 0, 0, 0, 0, 9, 10, 11, 12, 13, 14, 15, 16])
         == Ok([1, 2, 3, 4, 5, 6, 7, 8, 9, 10, 11, 12, 13, 14, 15, 16])
  {
    var buf: seq<bv8> := [1, 2, 3, 4, 5, 6, 7, 8, 0, 0, 0, 0, 9, 10, 11, 12, 13, 14, 15, 16];
    assert RowFailure(20, 16, 8, 12, 0) == None;
    assert RowFailure(20, 16, 8, 12, 1) == None;
    assert FirstFailure(20, 16, 8, 12, 2, 2) == None;
    assert FirstFailure(20, 16, 8, 12, 0, 2) == None;
    assert Unpadded(buf, 8, 12, 1) == buf[0..8];
    assert Unpadded(buf, 8, 12, 2) == buf[0..8] + buf[12..20];
    assert Zeros(0) == [];
    assert buf[0..8] + buf[12..20] + [] == [1, 2, 3, 4, 5, 6, 7, 8, 9, 10, 11, 12, 13, 14, 15, 16];
  }

  // ---------------------------------------------------------------- the capturer

  class ScreenCapturer {
    /** What the hidden screenshot APIs give for the primary display, or None when none is available. */
    const physicalFrame: Option<seq<bv8>>

    constructor (physicalFrame: Option<seq<bv8>>)
      ensures this.physicalFrame == physicalFrame
    {
      this.physicalFrame := physicalFrame;
    }

    /**
     * `captureVirtualDisplayRaw`: fails when no frame has arrived; otherwise
     * strips the frame's row padding and closes the frame, whether or not
     * the copy throws.
     */
    method CaptureVirtualDisplayRaw(reader: ImageReader) returns (r: Result<seq<bv8>>)
      requires reader.latest != null ==> reader.latest.WellFormed()
      modifies reader, reader.latest
      ensures reader.latest == null && reader.closeCalls == old(reader.closeCalls)
      ensures old(reader.latest) == null ==> r == Err(NoImageAvailable)
      ensures old(reader.latest) != null ==> old(reader.latest).closed
      ensures old(reader.latest) != null ==>
        var img := old(reader.latest);
        r == CaptureRaw(img.width, img.height, img.pixelStride, img.rowStride, img.buffer)
    {
      var image := reader.AcquireLatestImage();
      if image == null {
        return Err(NoImageAvailable);
      }
      r := StripPadding(image.width, image.height, image.pixelStride, image.rowStride, image.buffer);
      image.Close();
    }

    /** What `capturePhysicalDisplayRaw` returns: the primary display's frame, or a failure when no screenshot API works. */
    function CapturedPhysically(): (r: Result<seq<bv8>>)
      ensures r.Ok? <==> physicalFrame.Some?
      ensures r.Ok? ==> r.value == physicalFrame.value
      ensures r.Err? ==> r.error == PhysicalCaptureFailed
    {
      if physicalFrame.Some? then Ok(physicalFrame.value) else Err(PhysicalCaptureFailed)
    }

    method CapturePhysicalDisplayRaw() returns (r: Result<seq<bv8>>)
      ensures r == CapturedPhysically()
    {
      r := CapturedPhysically();
    }
  }

  /** The loop's view of a row that fits: it does not fail, and the next row starts `rowBytes` further on. */
  lemma RowFitsAt(bufLen: nat, outLen: nat, rowBytes: nat, rowStride: nat, row: nat, position: nat, offset: nat)
    requires position == row * rowStride && offset == row * rowBytes
    requires position <= bufLen && offset + rowBytes <= outLen && bufLen - position >= rowBytes
    ensures RowFailure(bufLen, outLen, rowBytes, rowStride, row) == None
    ensures offset + rowBytes == (row + 1) * rowBytes
    ensures (row + 1 - 1) * rowStride + rowBytes <= bufLen
  {
    MulStep(row + 1, rowBytes);
  }

  /** Copying row `row` over the zeros just past the rows already copied extends the unpadded prefix by that row. */
  lemma CopiedRow(buf: seq<bv8>, rowBytes: nat, rowStride: nat, row: nat, outLen: nat, before: seq<bv8>, after: seq<bv8>)
    requires row * rowStride + rowBytes <= |buf|
    requires |Unpadded(buf, rowBytes, rowStride, row)| == row * rowBytes
    requires row * rowBytes + rowBytes <= outLen
    requires before == Unpadded(buf, rowBytes, rowStride, row) + Zeros(outLen - row * rowBytes)
    requires after == before[..row * rowBytes] + buf[row * rowStride .. row * rowStride + rowBytes] + before[row * rowBytes + rowBytes..]
    ensures after == Unpadded(buf, rowBytes, rowStride, row + 1) + Zeros(outLen - (row * rowBytes + rowBytes))
  {
    MulStep(row, rowStride);
    assert before[..row * rowBytes] == Unpadded(buf, rowBytes, rowStride, row);
    assert before[row * rowBytes + rowBytes..] == Zeros(outLen - (row * rowBytes + rowBytes));
  }

  /** The body of the `try`: direct copy, or the row loop over a zero-filled output array. */
  method StripPadding(width: nat, height: nat, pixelStride: nat, rowStride: nat, buf: seq<bv8>) returns (r: Result<seq<bv8>>)
    ensures r == CaptureRaw(width, height, pixelStride, rowStride, buf)
  {
    if RowPadding(width, pixelStride, rowStride) == 0 {
      return Ok(buf);
    }
    MulStep(width, pixelStride);
    MulStep(width * height, 4);
    r := CopyRows(buf, width * pixelStride, rowStride, height, width * height * 4);
  }

  /**
   * The row loop: row by row, position the buffer at the row's start and
   * copy `rowBytes` bytes to the output, stopping at the first row that
   * does not fit.
   */
  method CopyRows(buf: seq<bv8>, rowBytes: nat, rowStride: nat, height: nat, outLen: nat) returns (r: Result<seq<bv8>>)
    ensures r == PaddedCopy(buf, rowBytes, rowStride, height, outLen)
  {
    var output := new bv8[outLen](_ => 0);
    var outputOffset: nat := 0;
    var row: nat := 0;
    while row < height
      invariant row <= height
      invariant FirstFailure(|buf|, outLen, rowBytes, rowStride, 0, row) == None
      invariant row == 0 || (row - 1) * rowStride + rowBytes <= |buf|
      invariant outputOffset == row * rowBytes <= outLen
      invariant |Unpadded(buf, rowBytes, rowStride, row)| == outputOffset
      invariant output[..] == Unpadded(buf, rowBytes, rowStride, row) + Zeros(outLen - outputOffset)
    {
      MulStep(row, rowStride);
      var position := row * rowStride;
      if position > |buf| || outputOffset + rowBytes > outLen || |buf| - position < rowBytes {
        FirstFailureSplit(|buf|, outLen, rowBytes, rowStride, 0, row, height);
        assert FirstFailure(|buf|, outLen, rowBytes, rowStride, row, height) == RowFailure(|buf|, outLen, rowBytes, rowStride, row);
        return Err(RowFailure(|buf|, outLen, rowBytes, rowStride, row).value);
      }
      ghost var before := output[..];
      BufferGet(buf, position, output, outputOffset, rowBytes);
      RowFitsAt(|buf|, outLen, rowBytes, rowStride, row, position, outputOffset);
      FirstFailureSnoc(|buf|, outLen, rowBytes, rowStride, 0, row);
      CopiedRow(buf, rowBytes, rowStride, row, outLen, before, output[..]);
      outputOffset := outputOffset + rowBytes;
      row := row + 1;
    }
    FirstFailureSplit(|buf|, outLen, rowBytes, rowStride, 0, height, height);
    NoFailureMeansFits(|buf|, outLen, rowBytes, rowStride, height);
    r := Ok(output[..]);
  }

  /** `ByteBuffer.get(dst, offset, length)` after `position(position)`: copies `length` bytes into `dst` at `offset`. */
  method BufferGet(src: seq<bv8>, position: nat, dst: array<bv8>, offset: nat, length: nat)
    requires position + length <= |src| && offset + length <= dst.Length
    modifies dst
    ensures dst[..] == old(dst[..])[..offset] + src[position .. position + length] + old(dst[..])[offset + length..]
  {
    forall k | offset <= k < offset + length {
      dst[k] := src[position + k - offset];
    }
  }
}
