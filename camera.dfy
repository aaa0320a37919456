/** The Android camera controller's frame path
    (android/app/src/main/kotlin/com/talia/chat/DeepARCameraController.kt:93-220): each
    YUV_420_888 frame is repacked into one NV21 buffer (the Y plane, then V and U
    interleaved) before it is handed to the AR engine; the lens can be switched. */
module Camera {
  import opened Outcomes

  newtype Byte = x: int | 0 <= x < 256

  datatype Lens = Front | Back

  /** One plane of a frame: its bytes, from position 0 to the limit, and its strides. */
  datatype Plane = Plane(buffer: seq<Byte>, rowStride: int, pixelStride: int)

  datatype YuvImage = YuvImage(y: Plane, u: Plane, v: Plane)

  /** What is posted to the AR engine. */
  datatype Frame = Frame(data: seq<Byte>, width: nat, height: nat, rotation: int, mirror: bool)

  /** The frame handed to the analyzer; it must be closed so that the next one comes. */
  class ImageProxy {
    const width: nat
    const height: nat
    const image: Option<YuvImage>
    const rotationDegrees: int
    var closed: bool

    constructor (width: nat, height: nat, image: Option<YuvImage>, rotationDegrees: int)
      ensures this.width == width && this.height == height && this.image == image
      ensures this.rotationDegrees == rotationDegrees && !closed
    {
      this.width := width;
      this.height := height;
      this.image := image;
      this.rotationDegrees := rotationDegrees;
      closed := false;
    }

    method Close()
      modifies this
      ensures closed
    {
      closed := true;
    }
  }

  // ---------------------------------------------------------------------------
  // Sizes
  // ---------------------------------------------------------------------------

  /** The chroma planes are subsampled by two in each direction, rounding up. */
  function Half(n: nat): nat {
    (n + 1) / 2
  }

  /** `width * height + 2 * ((width + 1) / 2) * ((height + 1) / 2)`. */
  function Nv21Size(w: nat, h: nat): nat {
    w * h + 2 * (Half(w) * Half(h))
  }

  lemma MulStep(a: nat, b: nat)
    ensures (a + 1) * b == a * b + b
  {
  }

  lemma MulMono(a: nat, b: nat, c: nat)
    requires a <= b
    ensures a * c <= b * c
  {
  }

  // ---------------------------------------------------------------------------
  // The Y plane
  // ---------------------------------------------------------------------------

  /** `yBuffer.position(row * yRowStride)` and `get(nv21, pos, width)` succeed. */
  predicate RowFits(y: seq<Byte>, w: nat, stride: int, row: nat) {
    0 <= row * stride && row * stride + w <= |y|
  }

  /** The row-by-row copy of the first `rows` rows; `None` where a read throws. */
  function YRows(y: seq<Byte>, w: nat, stride: int, rows: nat): (r: Option<seq<Byte>>)
    ensures r.Some? ==> |r.value| == rows * w
  {
    if rows == 0 then Some([])
    else
      match YRows(y, w, stride, rows - 1)
      case None => None
      case Some(b) =>
        MulStep(rows - 1, w);
        var start := (rows - 1) * stride;
        if RowFits(y, w, stride, rows - 1) then Some(b + y[start..start + w]) else None
  }

  /** The Y plane as copied: in one read when rows are unpadded, else row by row. */
  function YPlane(y: Plane, w: nat, h: nat): (r: Option<seq<Byte>>)
    ensures r.Some? ==> |r.value| == w * h
  {
    if y.rowStride == w then
      if w * h <= |y.buffer| then Some(y.buffer[..w * h]) else None
    else YRows(y.buffer, w, y.rowStride, h)
  }

  // ---------------------------------------------------------------------------
  // The chroma planes
  // ---------------------------------------------------------------------------

  /** `row * uvRowStride + col * uvPixelStride`, the index read from both V and U. */
  function UvIndex(rowStride: int, pixelStride: int, row: nat, col: nat): int {
    row * rowStride + col * pixelStride
  }

  /** `vBuffer.get(i)` and `uBuffer.get(i)` succeed. */
  predicate Readable(v: seq<Byte>, u: seq<Byte>, i: int) {
    0 <= i < |v| && i < |u|
  }

  /** The first `cols` V/U pairs of a chroma row. */
  function UvRow(v: seq<Byte>, u: seq<Byte>, rowStride: int, pixelStride: int, row: nat, cols: nat): (r: Option<seq<Byte>>)
    ensures r.Some? ==> |r.value| == 2 * cols
  {
    if cols == 0 then Some([])
    else
      match UvRow(v, u, rowStride, pixelStride, row, cols - 1)
      case None => None
      case Some(b) =>
        var i := UvIndex(rowStride, pixelStride, row, cols - 1);
        if Readable(v, u, i) then Some(b + [v[i], u[i]]) else None
  }

  /** The first `rows` chroma rows of `rowWidth` pairs each. */
  function UvRows(v: seq<Byte>, u: seq<Byte>, rowStride: int, pixelStride: int, rowWidth: nat, rows: nat)
    : (r: Option<seq<Byte>>)
    ensures r.Some? ==> |r.value| == 2 * (rows * rowWidth)
  {
    if rows == 0 then Some([])
    else
      match UvRows(v, u, rowStride, pixelStride, rowWidth, rows - 1)
      case None => None
      case Some(b) =>
        match UvRow(v, u, rowStride, pixelStride, rows - 1, rowWidth)
        case None => None
        case Some(r) =>
          MulStep(rows - 1, rowWidth);
          Some(b + r)
  }

  /** The fast case: the chroma planes are already interleaved with unpadded rows. */
  predicate Interleaved(img: YuvImage, w: nat) {
    img.u.pixelStride == 2 && img.u.rowStride == w
  }

  /** The chroma part as the source copies it: one read of `2 * uvWidth * uvHeight`
      bytes from the V buffer in the fast case, else the pair-by-pair interleaving loop. */
  function UvPlaneAsWritten(img: YuvImage, w: nat, h: nat): (r: Option<seq<Byte>>)
    ensures r.Some? ==> |r.value| == 2 * (Half(w) * Half(h))
    ensures Interleaved(img, w) ==> (r.Some? <==> 2 * (Half(w) * Half(h)) <= |img.v.buffer|)
  {
    var n := Half(w) * Half(h) * 2;
    if Interleaved(img, w) then
      if n <= |img.v.buffer| then Some(img.v.buffer[..n]) else None
    else
      UvRows(img.v.buffer, img.u.buffer, img.u.rowStride, img.u.pixelStride, Half(w), Half(h))
  }

  /** The chroma part with the fast case corrected: all but the last byte come from the
      V buffer and the last byte, the final U sample, from the U buffer, so the read stays
      within both views exactly where the loop's reads do. */
  function UvPlane(img: YuvImage, w: nat, h: nat): (r: Option<seq<Byte>>)
    ensures r.Some? ==> |r.value| == 2 * (Half(w) * Half(h))
    ensures Interleaved(img, w) && Half(w) * Half(h) > 0 ==>
              (r.Some? <==> 2 * (Half(w) * Half(h)) <= |img.v.buffer| + 1 &&
                            2 * (Half(w) * Half(h)) <= |img.u.buffer| + 1)
  {
    var k := Half(w) * Half(h);
    if Interleaved(img, w) then
      if k == 0 then Some([])
      else if 2 * k - 1 <= |img.v.buffer| && 2 * k - 2 < |img.u.buffer| then
        Some(img.v.buffer[..2 * k - 1] + [img.u.buffer[2 * k - 2]])
      else None
    else
      UvRows(img.v.buffer, img.u.buffer, img.u.rowStride, img.u.pixelStride, Half(w), Half(h))
  }

  /** The NV21 buffer, or `None` where a buffer read throws and the frame is dropped. */
  function Nv21(img: YuvImage, w: nat, h: nat): (r: Option<seq<Byte>>)
    ensures r.Some? ==> |r.value| == Nv21Size(w, h)
  {
    match YPlane(img.y, w, h)
    case None => None
    case Some(yb) =>
      match UvPlane(img, w, h)
      case None => None
      case Some(uvb) => Some(yb + uvb)
  }

  // ---------------------------------------------------------------------------
  // The packing loops
  // ---------------------------------------------------------------------------

  /** `ByteBuffer.get(dst, offset, length)` from a buffer positioned at `from`. */
  method CopyInto(src: seq<Byte>, from: nat, dst: array<Byte>, at: nat, n: nat)
    requires from + n <= |src| && at + n <= dst.Length
    modifies dst
    ensures dst[..at] == old(dst[..at])
    ensures dst[at..at + n] == src[from..from + n]
  {
    for k := 0 to n
      invariant dst[..at] == old(dst[..at])
      invariant dst[at..at + k] == src[from..from + k]
    {
      dst[at + k] := src[from + k];
      assert dst[at..at + k + 1] == dst[at..at + k] + [dst[at + k]];
    }
  }

  /** The arithmetic of one more row of `w` bytes within `h` rows. */
  lemma RowStep(row: nat, w: nat, h: nat)
    requires row < h
    ensures (row + 1) * w == row * w + w && row * w + w <= w * h
  {
    MulStep(row, w);
    MulMono(row + 1, h, w);
  }

  /** The Y copy of `processImageProxy`: in one read when `rowStride == width`, else
      row by row; `false` where a read throws. */
  method CopyYPlane(y: Plane, w: nat, h: nat, nv21: array<Byte>) returns (ok: bool)
    requires w * h <= nv21.Length
    modifies nv21
    ensures ok <==> YPlane(y, w, h).Some?
    ensures ok ==> nv21[..w * h] == YPlane(y, w, h).value
  {
    if y.rowStride == w {
      if w * h > |y.buffer| {
        return false;
      }
      CopyInto(y.buffer, 0, nv21, 0, w * h);
      assert nv21[..w * h] == nv21[0..w * h];
      return true;
    }
    ok := CopyYRows(y.buffer, w, y.rowStride, h, nv21);
  }

  /** The padded-row loop of the Y copy. */
  method CopyYRows(y: seq<Byte>, w: nat, stride: int, h: nat, nv21: array<Byte>) returns (ok: bool)
    requires w * h <= nv21.Length
    modifies nv21
    ensures ok <==> YRows(y, w, stride, h).Some?
    ensures ok ==> nv21[..w * h] == YRows(y, w, stride, h).value
  {
    var pos := 0;
    for row := 0 to h
      invariant pos == row * w && pos <= w * h
      invariant YRows(y, w, stride, row).Some?
      invariant nv21[..pos] == YRows(y, w, stride, row).value
    {
      RowStep(row, w, h);
      var rowOk;
      rowOk, pos := CopyYRow(y, w, stride, row, nv21, pos);
      if !rowOk {
        YRowsFailureStays(y, w, stride, row + 1, h);
        return false;
      }
    }
    ok := true;
  }

  /** One padded row: `position(row * rowStride)` and `get(nv21, pos, width)`, which
      throw when the row lies outside the buffer. */
  method CopyYRow(y: seq<Byte>, w: nat, stride: int, row: nat, nv21: array<Byte>, pos: nat)
    returns (ok: bool, next: nat)
    requires pos + w <= nv21.Length
    requires YRows(y, w, stride, row).Some? && nv21[..pos] == YRows(y, w, stride, row).value
    modifies nv21
    ensures next == pos + w
    ensures ok <==> YRows(y, w, stride, row + 1).Some?
    ensures ok ==> nv21[..next] == YRows(y, w, stride, row + 1).value
  {
    next := pos + w;
    if !RowFits(y, w, stride, row) {
      return false, next;
    }
    var start := row * stride;
    YRowsStep(y, w, stride, row);
    ghost var done := nv21[..pos];
    CopyInto(y, start, nv21, pos, w);
    AppendedPrefix(nv21[..], pos, w, done, y[start..start + w]);
    ok := true;
  }

  lemma YRowsStep(y: seq<Byte>, w: nat, stride: int, row: nat)
    requires RowFits(y, w, stride, row) && YRows(y, w, stride, row).Some?
    ensures YRows(y, w, stride, row + 1)
         == Some(YRows(y, w, stride, row).value + y[row * stride..row * stride + w])
  {
  }

  lemma AppendedPrefix(a: seq<Byte>, at: nat, n: nat, prefix: seq<Byte>, piece: seq<Byte>)
    requires at + n <= |a| && a[..at] == prefix && a[at..at + n] == piece
    ensures a[..at + n] == prefix + piece
  {
    assert a[..at + n] == a[..at] + a[at..at + n];
  }

  /** A row that cannot be read fails every longer copy. */
  lemma {:induction false} YRowsFailureStays(y: seq<Byte>, w: nat, stride: int, rows: nat, more: nat)
    requires rows <= more && YRows(y, w, stride, rows).None?
    ensures YRows(y, w, stride, more).None?
    decreases more - rows
  {
    if rows < more {
      YRowsFailureStays(y, w, stride, rows + 1, more);
    }
  }

  lemma {:induction false} UvRowFailureStays(v: seq<Byte>, u: seq<Byte>, rs: int, ps: int, row: nat, cols: nat, more: nat)
    requires cols <= more && UvRow(v, u, rs, ps, row, cols).None?
    ensures UvRow(v, u, rs, ps, row, more).None?
    decreases more - cols
  {
    if cols < more {
      UvRowFailureStays(v, u, rs, ps, row, cols + 1, more);
    }
  }

  lemma {:induction false} UvRowsFailureStays(v: seq<Byte>, u: seq<Byte>, rs: int, ps: int, rowWidth: nat, rows: nat, more: nat)
    requires rows <= more && UvRows(v, u, rs, ps, rowWidth, rows).None?
    ensures UvRows(v, u, rs, ps, rowWidth, more).None?
    decreases more - rows
  {
    if rows < more {
      UvRowsFailureStays(v, u, rs, ps, rowWidth, rows + 1, more);
    }
  }

  lemma PixelBound(row: nat, col: nat, rowWidth: nat, rows: nat)
    requires row < rows && col < rowWidth
    ensures row * rowWidth + col + 1 <= rows * rowWidth
  {
    MulStep(row, rowWidth);
    MulMono(row + 1, rows, rowWidth);
  }

  /** The chroma copy of `processImageProxy`, from write position `start`: one read of
      the V buffer in the interleaved case, else pair by pair. */
  method CopyUvPlanes(img: YuvImage, w: nat, h: nat, nv21: array<Byte>, start: nat) returns (ok: bool)
    requires start + 2 * (Half(w) * Half(h)) == nv21.Length
    modifies nv21
    ensures ok <==> UvPlane(img, w, h).Some?
    ensures ok ==> nv21[..start] == old(nv21[..start]) && nv21[start..] == UvPlane(img, w, h).value
  {
    var uvWidth := Half(w);
    var uvHeight := Half(h);
    if img.u.pixelStride == 2 && img.u.rowStride == w {
      var n := uvWidth * uvHeight * 2;
      if n == 0 {
        return true;
      }
      if n - 1 > |img.v.buffer| || n - 2 >= |img.u.buffer| {
        return false;
      }
      CopyInto(img.v.buffer, 0, nv21, start, n - 1);
      nv21[start + n - 1] := img.u.buffer[n - 2];
      assert nv21[start..] == nv21[start..start + n - 1] + [nv21[start + n - 1]];
      return true;
    }
    ok := CopyUvRows(img.v.buffer, img.u.buffer, img.u.rowStride, img.u.pixelStride, uvWidth, uvHeight, nv21, start);
    assert nv21[start..] == nv21[start..start + 2 * (uvHeight * uvWidth)];
  }

  /** The two nested chroma loops. */
  method CopyUvRows(v: seq<Byte>, u: seq<Byte>, rs: int, ps: int, rowWidth: nat, rows: nat,
                    nv21: array<Byte>, start: nat) returns (ok: bool)
    requires start + 2 * (rows * rowWidth) <= nv21.Length
    modifies nv21
    ensures ok <==> UvRows(v, u, rs, ps, rowWidth, rows).Some?
    ensures ok ==> nv21[..start] == old(nv21[..start])
    ensures ok ==> nv21[start..start + 2 * (rows * rowWidth)] == UvRows(v, u, rs, ps, rowWidth, rows).value
  {
    var pos := start;
    for row := 0 to rows
      invariant pos == start + 2 * (row * rowWidth) && row * rowWidth <= rows * rowWidth
      invariant UvRows(v, u, rs, ps, rowWidth, row).Some?
      invariant nv21[..start] == old(nv21[..start])
      invariant nv21[start..pos] == UvRows(v, u, rs, ps, rowWidth, row).value
    {
      RowStep(row, rowWidth, rows);
      ghost var before := nv21[..];
      var rowOk := CopyUvRow(v, u, rs, ps, row, rowWidth, nv21, pos);
      if !rowOk {
        UvRowsFailureStays(v, u, rs, ps, rowWidth, row + 1, rows);
        return false;
      }
      SpliceAfter(before, nv21[..], start, pos, 2 * rowWidth);
      pos := pos + 2 * rowWidth;
    }
    ok := true;
  }

  /** Writing after `pos` keeps what lies before it and extends the run from `start`. */
  lemma SpliceAfter(before: seq<Byte>, after: seq<Byte>, start: nat, pos: nat, n: nat)
    requires start <= pos && pos + n <= |after| == |before| && after[..pos] == before[..pos]
    ensures after[..start] == before[..start]
    ensures after[start..pos + n] == before[start..pos] + after[pos..pos + n]
  {
    assert after[..start] == after[..pos][..start];
    assert before[..start] == before[..pos][..start];
    assert after[start..pos] == after[..pos][start..];
    assert before[start..pos] == before[..pos][start..];
  }

  /** The inner loop over one chroma row: V then U, both read at one index. */
  method CopyUvRow(v: seq<Byte>, u: seq<Byte>, rs: int, ps: int, row: nat, cols: nat,
                   nv21: array<Byte>, pos: nat) returns (ok: bool)
    requires pos + 2 * cols <= nv21.Length
    modifies nv21
    ensures ok <==> UvRow(v, u, rs, ps, row, cols).Some?
    ensures nv21[..pos] == old(nv21[..pos])
    ensures ok ==> nv21[pos..pos + 2 * cols] == UvRow(v, u, rs, ps, row, cols).value
  {
    var p := pos;
    for col := 0 to cols
      invariant p == pos + 2 * col
      invariant UvRow(v, u, rs, ps, row, col).Some?
      invariant nv21[..pos] == old(nv21[..pos])
      invariant nv21[pos..p] == UvRow(v, u, rs, ps, row, col).value
    {
      var index := UvIndex(rs, ps, row, col);
      if !Readable(v, u, index) {
        UvRowFailureStays(v, u, rs, ps, row, col + 1, cols);
        return false;
      }
      nv21[p] := v[index];
      nv21[p + 1] := u[index];
      assert nv21[pos..p + 2] == nv21[pos..p] + [v[index], u[index]];
      p := p + 2;
    }
    ok := true;
  }

  /** The buffer `processImageProxy` builds, or `None` where it throws. */
  method PackNv21(img: YuvImage, w: nat, h: nat) returns (out: Option<seq<Byte>>)
    ensures out == Nv21(img, w, h)
  {
    var nv21Size := Nv21Size(w, h);
    var nv21 := new Byte[nv21Size];
    var yOk := CopyYPlane(img.y, w, h, nv21);
    if !yOk {
      return None;
    }
    var ok := CopyUvPlanes(img, w, h, nv21, w * h);
    if !ok {
      return None;
    }
    assert nv21[..] == nv21[..w * h] + nv21[w * h..];
    out := Some(nv21[..]);
  }

  // ---------------------------------------------------------------------------
  // The controller
  // ---------------------------------------------------------------------------

  function Switched(l: Lens): Lens {
    if l == Front then Back else Front
  }

  /** The frame log fires every 30th frame or when 2 s have passed since the last one. */
  predicate LogDue(frameCount: int, now: int, lastLogTime: int) {
    frameCount % 30 == 0 || now - lastLogTime > 2000
  }

  /** The frame posted for an image, mirrored for the front camera. */
  function FrameOf(img: YuvImage, w: nat, h: nat, rotation: int, lens: Lens): (f: Option<Frame>)
    ensures f.Some? ==> f.value.mirror == (lens == Front) && |f.value.data| == Nv21Size(w, h)
    ensures f.Some? <==> Nv21(img, w, h).Some?
  {
    match Nv21(img, w, h)
    case None => None
    case Some(data) => Some(Frame(data, w, h, rotation, lens == Front))
  }

  class CameraController {
    var lensFacing: Lens
    var frameCount: int
    var lastLogTime: int

    /** The front camera by default; the log clock starts at construction. */
    constructor (now: int)
      ensures lensFacing == Front && frameCount == 0 && lastLogTime == now
    {
      lensFacing := Front;
      frameCount := 0;
      lastLogTime := now;
    }

    /** `switchCamera`: the lens flips (rebinding the camera is not modelled). */
    method SwitchCamera()
      modifies this`lensFacing
      ensures lensFacing == Switched(old(lensFacing))
    {
      lensFacing := if lensFacing == Front then Back else Front;
    }

    /** `processImageProxy`: a proxy without an image is closed and ignored; otherwise the
        frame is counted, the log clock advanced when a log line is due, and the packed
        frame posted unless a buffer read threw. The proxy is closed on every path. */
    method ProcessImageProxy(proxy: ImageProxy, now: int) returns (frame: Option<Frame>)
      modifies this`frameCount, this`lastLogTime, proxy
      ensures proxy.closed
      ensures proxy.image.None? ==> frame.None? && frameCount == old(frameCount) && lastLogTime == old(lastLogTime)
      ensures proxy.image.Some? ==>
                && frameCount == old(frameCount) + 1
                && lastLogTime == (if LogDue(old(frameCount) + 1, now, old(lastLogTime)) then now else old(lastLogTime))
                && frame == FrameOf(proxy.image.value, proxy.width, proxy.height, proxy.rotationDegrees, lensFacing)
    {
      if proxy.image.None? {
        proxy.Close();
        return None;
      }
      var image := proxy.image.value;
      var width := proxy.width;
      var height := proxy.height;
      frameCount := frameCount + 1;
      var currentTime := now;
      if frameCount % 30 == 0 || currentTime - lastLogTime > 2000 {
        lastLogTime := currentTime;
      }
      var nv21 := PackNv21(image, width, height);
      frame := None;
      if nv21.Some? {
        frame := Some(Frame(nv21.value, width, height, proxy.rotationDegrees, lensFacing == Front));
      }
      proxy.Close();
    }
  }

  // ---------------------------------------------------------------------------
  // Properties
  // ---------------------------------------------------------------------------

  /** Switching twice restores the lens; a switch always changes it. */
  lemma SwitchIsAnInvolution(l: Lens)
    ensures Switched(Switched(l)) == l && Switched(l) != l
  {
  }

  /** The padded copy takes `width` bytes from offset `row * rowStride` for each row. */
  lemma {:induction false} YRowsTakeRowSlices(y: seq<Byte>, w: nat, stride: int, rows: nat, r: nat)
    requires YRows(y, w, stride, rows).Some? && r < rows
    ensures RowFits(y, w, stride, r)
    ensures var b := YRows(y, w, stride, rows).value;
            r * w + w <= |b| && b[r * w..r * w + w] == y[r * stride..r * stride + w]
    decreases rows
  {
    var b' := YRows(y, w, stride, rows - 1).value;
    var piece := y[(rows - 1) * stride..(rows - 1) * stride + w];
    YRowsStep(y, w, stride, rows - 1);
    var b := b' + piece;
    assert |b'| == (rows - 1) * w;
    if r < rows - 1 {
      YRowsTakeRowSlices(y, w, stride, rows - 1, r);
      assert b[r * w..r * w + w] == b'[r * w..r * w + w];
    } else {
      MulStep(rows - 1, w);
      assert b[r * w..r * w + w] == piece;
    }
  }

  /** With unpadded rows the single read and the row-by-row copy agree, including on
      whether the buffer is long enough. */
  lemma {:induction false} UnpaddedRowsAreOneRead(y: seq<Byte>, w: nat, rows: nat)
    ensures YRows(y, w, w, rows) == if rows * w <= |y| then Some(y[..rows * w]) else None
    decreases rows
  {
    if rows > 0 {
      UnpaddedRowsAreOneRead(y, w, rows - 1);
      MulStep(rows - 1, w);
      if rows * w <= |y| {
        assert y[..rows * w] == y[..(rows - 1) * w] + y[(rows - 1) * w..(rows - 1) * w + w];
      } else if (rows - 1) * w <= |y| {
        assert !RowFits(y, w, w, rows - 1);
      }
    }
  }

  /** Each chroma pair holds V then U read at one and the same index. */
  lemma {:induction false} UvRowPairs(v: seq<Byte>, u: seq<Byte>, rs: int, ps: int, row: nat, cols: nat, c: nat)
    requires UvRow(v, u, rs, ps, row, cols).Some? && c < cols
    ensures var i := UvIndex(rs, ps, row, c);
            var b := UvRow(v, u, rs, ps, row, cols).value;
            Readable(v, u, i) && b[2 * c] == v[i] && b[2 * c + 1] == u[i]
    decreases cols
  {
    var b := UvRow(v, u, rs, ps, row, cols).value;
    var b' := UvRow(v, u, rs, ps, row, cols - 1).value;
    if c < cols - 1 {
      UvRowPairs(v, u, rs, ps, row, cols - 1, c);
      assert b[2 * c] == b'[2 * c] && b[2 * c + 1] == b'[2 * c + 1];
    }
  }

  /** The chroma pair of pixel (row, col) sits at offset 2 * (row * rowWidth + col). */
  lemma {:induction false} UvRowsPairs(v: seq<Byte>, u: seq<Byte>, rs: int, ps: int, rowWidth: nat, rows: nat,
                                        row: nat, col: nat)
    requires UvRows(v, u, rs, ps, rowWidth, rows).Some? && row < rows && col < rowWidth
    ensures var i := UvIndex(rs, ps, row, col);
            var b := UvRows(v, u, rs, ps, rowWidth, rows).value;
            var k := 2 * (row * rowWidth + col);
            Readable(v, u, i) && k + 1 < |b| && b[k] == v[i] && b[k + 1] == u[i]
    decreases rows
  {
    var b := UvRows(v, u, rs, ps, rowWidth, rows).value;
    var b' := UvRows(v, u, rs, ps, rowWidth, rows - 1).value;
    var last := UvRow(v, u, rs, ps, rows - 1, rowWidth).value;
    assert b == b' + last;
    PixelBound(row, col, rowWidth, rows);
    if row < rows - 1 {
      UvRowsPairs(v, u, rs, ps, rowWidth, rows - 1, row, col);
      PixelBound(row, col, rowWidth, rows - 1);
    } else {
      UvRowPairs(v, u, rs, ps, rows - 1, rowWidth, col);
      assert 2 * (row * rowWidth + col) == |b'| + 2 * col;
    }
  }

  /** A packed frame is exactly `Nv21Size` bytes: the Y plane in its first `width *
      height` bytes, then the chroma rows of the interleaving loop (each pair of which
      `UvRowsPairs` locates). */
  lemma PackedFrameLayout(img: YuvImage, w: nat, h: nat)
    requires Nv21(img, w, h).Some? && !Interleaved(img, w)
    ensures var b := Nv21(img, w, h).value;
            && |b| == Nv21Size(w, h)
            && b[..w * h] == YPlane(img.y, w, h).value
            && UvRows(img.v.buffer, img.u.buffer, img.u.rowStride, img.u.pixelStride, Half(w), Half(h)).Some?
            && b[w * h..] == UvRows(img.v.buffer, img.u.buffer, img.u.rowStride, img.u.pixelStride, Half(w), Half(h)).value
  {
    var yb := YPlane(img.y, w, h).value;
    var uvb := UvPlane(img, w, h).value;
    assert Nv21(img, w, h).value == yb + uvb;
    assert (yb + uvb)[..|yb|] == yb && (yb + uvb)[|yb|..] == uvb;
  }

  /** How a camera lays out interleaved chroma: V and U are views of one allocation
      `mem` (VUVU...), V starting at its first byte and U at its second, so that V may
      end one byte short of the last U sample and U one byte short of the allocation. */
  predicate ViewsOf(mem: seq<Byte>, v: seq<Byte>, u: seq<Byte>) {
    && |v| <= |mem| && (forall i :: 0 <= i < |v| ==> v[i] == mem[i])
    && |u| + 1 <= |mem| && (forall i :: 0 <= i < |u| ==> u[i] == mem[i + 1])
  }

  lemma {:induction false} InterleavedRowIsOneRead(mem: seq<Byte>, v: seq<Byte>, u: seq<Byte>, w: nat, row: nat, cols: nat)
    requires ViewsOf(mem, v, u)
    requires row * w + 2 * cols <= |v| + 1 && row * w + 2 * cols <= |u| + 1
    ensures row * w + 2 * cols <= |mem|
    ensures UvRow(v, u, w, 2, row, cols) == Some(mem[row * w..row * w + 2 * cols])
    decreases cols
  {
    var s := row * w;
    if cols > 0 {
      InterleavedRowIsOneRead(mem, v, u, w, row, cols - 1);
      var i := UvIndex(w, 2, row, cols - 1);
      assert i == s + 2 * (cols - 1);
      assert v[i] == mem[i] && u[i] == mem[i + 1];
      assert mem[s..s + 2 * cols] == mem[s..s + 2 * (cols - 1)] + [mem[i], mem[i + 1]];
    } else {
      assert mem[s..s] == [];
    }
  }

  lemma {:induction false} InterleavedRowsAreOneRead(mem: seq<Byte>, v: seq<Byte>, u: seq<Byte>, rowWidth: nat, rows: nat)
    requires ViewsOf(mem, v, u)
    requires 2 * (rows * rowWidth) <= |v| + 1 && 2 * (rows * rowWidth) <= |u| + 1
    ensures 2 * (rows * rowWidth) <= |mem|
    ensures UvRows(v, u, 2 * rowWidth, 2, rowWidth, rows) == Some(mem[..2 * (rows * rowWidth)])
    decreases rows
  {
    if rows > 0 {
      var w := 2 * rowWidth;
      var prev := 2 * ((rows - 1) * rowWidth);
      assert 2 * (rows * rowWidth) == prev + w && (rows - 1) * w == prev by {
        MulStep(rows - 1, rowWidth);
      }
      assert UvRows(v, u, w, 2, rowWidth, rows - 1) == Some(mem[..prev]) by {
        InterleavedRowsAreOneRead(mem, v, u, rowWidth, rows - 1);
      }
      assert UvRow(v, u, w, 2, rows - 1, rowWidth) == Some(mem[prev..prev + w]) by {
        InterleavedRowIsOneRead(mem, v, u, w, rows - 1, rowWidth);
      }
      UvRowsSnoc(v, u, w, 2, rowWidth, rows, mem[..prev], mem[prev..prev + w]);
      PrefixSplit(mem, prev, w);
    }
  }

  lemma PrefixSplit(mem: seq<Byte>, prev: nat, w: nat)
    requires prev + w <= |mem|
    ensures mem[..prev + w] == mem[..prev] + mem[prev..prev + w]
  {
  }

  /** The rows of the loop are the earlier rows followed by the last one. */
  lemma UvRowsSnoc(v: seq<Byte>, u: seq<Byte>, rs: int, ps: int, rowWidth: nat, rows: nat, b: seq<Byte>, r: seq<Byte>)
    requires rows > 0
    requires UvRows(v, u, rs, ps, rowWidth, rows - 1) == Some(b) && UvRow(v, u, rs, ps, rows - 1, rowWidth) == Some(r)
    ensures UvRows(v, u, rs, ps, rowWidth, rows) == Some(b + r)
  {
  }

  /** The corrected fast read is a faithful shortcut: for an even width and chroma views
      of one allocation it succeeds exactly when the pair-by-pair loop does and yields the
      same bytes, the allocation's first `2 * uvWidth * uvHeight`. (For an odd width the
      rows of `uvWidth` pairs are one byte wider than the row stride, and the single read
      and the loop copy different bytes.) */
  lemma CorrectedFastReadAgreesWithLoop(img: YuvImage, w: nat, h: nat, mem: seq<Byte>)
    requires Interleaved(img, w) && w % 2 == 0 && ViewsOf(mem, img.v.buffer, img.u.buffer)
    ensures UvPlane(img, w, h) == UvRows(img.v.buffer, img.u.buffer, w, 2, Half(w), Half(h))
    ensures UvPlane(img, w, h).Some? ==> UvPlane(img, w, h) == Some(mem[..2 * (Half(w) * Half(h))])
  {
    var v, u := img.v.buffer, img.u.buffer;
    var uvWidth, uvHeight := Half(w), Half(h);
    var n := 2 * (uvWidth * uvHeight);
    HalfOfEven(w);
    if n <= |v| + 1 && n <= |u| + 1 {
      assert UvRows(v, u, w, 2, uvWidth, uvHeight) == Some(mem[..n]) by {
        InterleavedRowsAreOneRead(mem, v, u, uvWidth, uvHeight);
      }
      FastReadIsPrefix(img, w, h, mem);
    } else {
      assert UvRows(v, u, w, 2, uvWidth, uvHeight).None? by {
        LoopNeedsBothViews(v, u, uvWidth, uvHeight);
      }
    }
  }

  lemma HalfOfEven(w: nat)
    requires w % 2 == 0
    ensures 2 * Half(w) == w
  {
  }

  /** Within both views, the corrected fast read copies the allocation's prefix. */
  lemma FastReadIsPrefix(img: YuvImage, w: nat, h: nat, mem: seq<Byte>)
    requires Interleaved(img, w) && ViewsOf(mem, img.v.buffer, img.u.buffer)
    requires 2 * (Half(w) * Half(h)) <= |img.v.buffer| + 1 && 2 * (Half(w) * Half(h)) <= |img.u.buffer| + 1
    ensures UvPlane(img, w, h) == Some(mem[..2 * (Half(w) * Half(h))])
  {
    var v, u := img.v.buffer, img.u.buffer;
    var k := Half(w) * Half(h);
    if k > 0 {
      assert v[..2 * k - 1] == mem[..2 * k - 1];
      assert u[2 * k - 2] == mem[2 * k - 1];
      assert mem[..2 * k] == mem[..2 * k - 1] + [mem[2 * k - 1]];
    } else {
      assert mem[..0] == [];
    }
  }

  /** The loop's last read is at `2 * uvWidth * uvHeight - 2` in both views: if either is
      shorter than that, the loop throws. */
  lemma LoopNeedsBothViews(v: seq<Byte>, u: seq<Byte>, rowWidth: nat, rows: nat)
    requires rows * (2 * rowWidth) > |v| + 1 || rows * (2 * rowWidth) > |u| + 1
    ensures UvRows(v, u, 2 * rowWidth, 2, rowWidth, rows).None?
  {
    var w := 2 * rowWidth;
    var last := rows - 1;
    MulStep(last, w);
    var i := UvIndex(w, 2, last, rowWidth - 1);
    assert i == last * w + 2 * (rowWidth - 1) == rows * w - 2;
    assert !Readable(v, u, i);
    UvRowReadFails(v, u, w, last, rowWidth);
    UvRowsFailureStays(v, u, w, 2, rowWidth, rows, rows);
  }

  /** A row fails when the read for its last pair fails. */
  lemma UvRowReadFails(v: seq<Byte>, u: seq<Byte>, w: nat, row: nat, cols: nat)
    requires cols > 0 && !Readable(v, u, UvIndex(w, 2, row, cols - 1))
    ensures UvRow(v, u, w, 2, row, cols).None?
  {
  }

  /** As written, the fast case drops a frame the loop would pack: when V and U are views
      of one allocation of exactly `2 * uvWidth * uvHeight` bytes, each one byte shorter,
      the single read of that many bytes from V underflows, while the loop and the
      corrected read both copy the whole allocation. */
  lemma SharedViewsFastReadUnderflows(img: YuvImage, w: nat, h: nat, mem: seq<Byte>)
    requires Interleaved(img, w) && w % 2 == 0 && ViewsOf(mem, img.v.buffer, img.u.buffer)
    requires |mem| == 2 * (Half(w) * Half(h)) > 0
    requires |img.v.buffer| == |mem| - 1 && |img.u.buffer| == |mem| - 1
    ensures UvPlaneAsWritten(img, w, h).None?
    ensures UvRows(img.v.buffer, img.u.buffer, w, 2, Half(w), Half(h)) == Some(mem)
    ensures UvPlane(img, w, h) == Some(mem)
  {
    CorrectedFastReadAgreesWithLoop(img, w, h, mem);
    assert mem[..|mem|] == mem;
  }

  /** The smallest such frame: 2x2 pixels, one V/U pair, V and U one-byte views of a
      two-byte chroma allocation. */
  lemma TwoByTwoSharedFrame(y: seq<Byte>, a: Byte, b: Byte)
    ensures var img := YuvImage(Plane(y, 2, 1), Plane([b], 2, 2), Plane([a], 2, 2));
            && UvPlaneAsWritten(img, 2, 2).None?
            && UvPlane(img, 2, 2) == Some([a, b])
  {
    var img := YuvImage(Plane(y, 2, 1), Plane([b], 2, 2), Plane([a], 2, 2));
    assert ViewsOf([a, b], [a], [b]);
    SharedViewsFastReadUnderflows(img, 2, 2, [a, b]);
  }
}
