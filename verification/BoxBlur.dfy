/**
  The separable box blur of src/blur.c: a running sum slid along rows and then
  columns of an ARGB8888 image, in place. The specification is the plain clamped
  mean; the properties a blurred picture has to keep are proved of it.
 */
module BoxBlur {
  import opened Arithmetic
  import opened Utf8

  /** The running sum is a uint32_t. */
  const U32: int := 0x1_0000_0000

  /** The widest radius whose window of white samples still fits the sum, and the
      longest side an image may have for the cap to keep the radius below it. */
  const RADIUS_EXACT: nat := 8421504
  const SIDE_EXACT: nat := 16843009

  // ------------------------------------------------------------- one line

  /** Samples past an end are the sample at that end. */
  function Clamp(i: int, n: nat): nat
    requires n > 0
  {
    if i < 0 then 0 else if i >= n then n - 1 else i
  }

  /** The samples at positions lo to hi - 1, clamped to the line. */
  function Sum(line: seq<byte>, lo: int, hi: int): nat
    requires line != []
    decreases hi - lo
  {
    if lo >= hi then 0 else Sum(line, lo, hi - 1) + line[Clamp(hi - 1, |line|)]
  }

  /** The floor of the mean of the 2r + 1 samples around position `i`. */
  function Mean(line: seq<byte>, i: int, r: nat): nat
    requires line != []
  {
    Sum(line, i - r, i + r + 1) / (2 * r + 1)
  }

  /** What the routine stores: the sum as far as 32 bits carry it. */
  function Box(line: seq<byte>, i: int, r: nat): (b: byte)
    requires line != []
  {
    SumBounds(line, i - r, i + r + 1, 0, 255);
    Quotient(Sum(line, i - r, i + r + 1) % U32, 2 * r + 1, 255);
    Sum(line, i - r, i + r + 1) % U32 / (2 * r + 1)
  }

  lemma {:induction false} SumBounds(line: seq<byte>, lo: int, hi: int, least: nat, most: nat)
    requires line != [] && lo <= hi && forall x :: x in line ==> least <= x <= most
    ensures least * (hi - lo) <= Sum(line, lo, hi) <= most * (hi - lo)
    decreases hi - lo
  {
    if lo >= hi {
    } else {
      SumBounds(line, lo, hi - 1, least, most);
      assert line[Clamp(hi - 1, |line|)] in line;
      OneMore(least, hi - 1 - lo);
      OneMore(most, hi - 1 - lo);
    }
  }

  lemma {:induction false} SumFront(line: seq<byte>, lo: int, hi: int)
    requires line != [] && lo < hi
    ensures Sum(line, lo, hi) == line[Clamp(lo, |line|)] + Sum(line, lo + 1, hi)
    decreases hi - lo
  {
    if lo + 1 >= hi {
    } else {
      SumFront(line, lo, hi - 1);
    }
  }

  lemma {:induction false} SumMonotone(a: seq<byte>, b: seq<byte>, lo: int, hi: int)
    requires |a| == |b| > 0 && forall i :: 0 <= i < |a| ==> a[i] <= b[i]
    ensures Sum(a, lo, hi) <= Sum(b, lo, hi)
    decreases hi - lo
  {
    if lo >= hi {
    } else {
      SumMonotone(a, b, lo, hi - 1);
    }
  }

  function Total(s: seq<byte>): nat {
    if s == [] then 0 else Total(s[..|s| - 1]) + s[|s| - 1]
  }

  lemma {:induction false} SumSplits(line: seq<byte>, lo: int, mid: int, hi: int)
    requires line != [] && lo <= mid <= hi
    ensures Sum(line, lo, hi) == Sum(line, lo, mid) + Sum(line, mid, hi)
    decreases hi - mid
  {
    if mid < hi {
      SumSplits(line, lo, mid, hi - 1);
    }
  }

  lemma {:induction false} SumBefore(line: seq<byte>, lo: int, hi: int)
    requires line != [] && lo <= hi <= 0
    ensures Sum(line, lo, hi) == line[0] * (hi - lo)
    decreases hi - lo
  {
    if lo < hi {
      SumBefore(line, lo, hi - 1);
      OneMore(line[0], hi - 1 - lo);
    }
  }

  lemma {:induction false} SumAfter(line: seq<byte>, lo: int, hi: int)
    requires line != [] && |line| <= lo <= hi
    ensures Sum(line, lo, hi) == line[|line| - 1] * (hi - lo)
    decreases hi - lo
  {
    if lo < hi {
      SumAfter(line, lo, hi - 1);
      OneMore(line[|line| - 1], hi - 1 - lo);
    }
  }

  lemma {:induction false} SumInside(line: seq<byte>, lo: nat, hi: nat)
    requires line != [] && lo <= hi <= |line|
    ensures Sum(line, lo, hi) == Total(line[lo..hi])
    decreases hi - lo
  {
    if lo < hi {
      SumInside(line, lo, hi - 1);
      assert line[lo..hi][..hi - lo - 1] == line[lo..hi - 1];
    }
  }

  /** The sum a mean is taken of: the samples of the line within the radius, and
      the ones at its ends once more for each position past them. */
  lemma EdgesRepeat(line: seq<byte>, i: nat, r: nat)
    requires i < |line|
    ensures var lo, hi := if i < r then 0 else i - r, if i + r + 1 > |line| then |line| else i + r + 1;
            Sum(line, i - r, i + r + 1) ==
            (if i < r then line[0] * (r - i) else 0) + Total(line[lo..hi])
            + if i + r + 1 > |line| then line[|line| - 1] * (i + r + 1 - |line|) else 0
  {
    var lo, hi := if i < r then 0 else i - r, if i + r + 1 > |line| then |line| else i + r + 1;
    SumSplits(line, i - r, lo, i + r + 1);
    SumSplits(line, lo, hi, i + r + 1);
    SumInside(line, lo, hi);
    hide Sum;
    if i < r {
      SumBefore(line, i - r, 0);
    } else {
      SumNone(line, lo);
    }
    if i + r + 1 > |line| {
      SumAfter(line, |line|, i + r + 1);
    } else {
      SumNone(line, hi);
    }
  }

  lemma SumNone(line: seq<byte>, at: int)
    requires line != []
    ensures Sum(line, at, at) == 0
  {
  }

  /** The stored value is the mean for every line exactly when the radius leaves
      the sum room in 32 bits; beyond that a white line already goes wrong. */
  lemma BoxIsMeanIff(r: nat)
    ensures r <= RADIUS_EXACT <==> forall line, i :: line != [] ==> Box(line, i, r) == Mean(line, i, r)
  {
    if r <= RADIUS_EXACT {
      forall line: seq<byte>, i: int | line != []
        ensures Box(line, i, r) == Mean(line, i, r)
      {
        BoxIsMean(line, i, r);
      }
    } else {
      WhiteLineIff([255], 0, r);
      SumBounds([255], 0 - r, r + 1, 255, 255);
      Division(Sum([255], 0 - r, r + 1), 2 * r + 1, 255, 0);
      assert [255 as byte] != [] && Mean([255], 0, r) == 255;
    }
  }

  lemma BoxIsMean(line: seq<byte>, i: int, r: nat)
    requires line != [] && r <= RADIUS_EXACT
    ensures Box(line, i, r) == Mean(line, i, r)
  {
    SumBounds(line, i - r, i + r + 1, 0, 255);
  }

  /** A white line of any length comes out white exactly up to that radius. */
  lemma WhiteLineIff(line: seq<byte>, i: int, r: nat)
    requires line != [] && forall x :: x in line ==> x == 255
    ensures Box(line, i, r) == 255 <==> r <= RADIUS_EXACT
  {
    var n, s := 2 * r + 1, Sum(line, i - r, i + r + 1);
    SumBounds(line, i - r, i + r + 1, 255, 255);
    assert s == 255 * n;
    Division(s, n, 255, 0);
    if r > RADIUS_EXACT {
      assert s % U32 < s;
      Times(n, 255, s % U32 / n);
    }
  }

  /** Whatever the radius, nothing stored exceeds the greatest sample. */
  lemma BoxAtMost(line: seq<byte>, i: int, r: nat, most: byte)
    requires line != [] && forall j :: 0 <= j < |line| ==> line[j] <= most
    ensures Box(line, i, r) <= most
  {
    var n, s := 2 * r + 1, Sum(line, i - r, i + r + 1);
    SumBounds(line, i - r, i + r + 1, 0, most);
    Quotient(s % U32, n, most);
  }

  // ------------------------------------------------------ one line in place

  const CHANNELS: nat := 4

  /** Channel `c` of the `n` pixels that start at `at`, `step` bytes apart. */
  function LineOf(s: seq<byte>, at: nat, step: nat, n: nat, c: nat): (line: seq<byte>)
    requires c < CHANNELS && (n > 0 ==> at + (n - 1) * step + CHANNELS <= |s|)
    ensures |line| == n
  {
    seq(n, i requires 0 <= i < n => Times(step, i, n - 1); s[at + i * step + c])
  }

  /** A running sum per channel. */
  type Sums = s: seq<nat> | |s| == CHANNELS witness [0, 0, 0, 0]

  method AddPixel(sum0: Sums, src: array<byte>, at: nat) returns (sum: Sums)
    requires at + CHANNELS <= src.Length
    ensures forall c :: 0 <= c < CHANNELS ==> sum[c] == (sum0[c] + src[at + c]) % U32
  {
    sum := sum0;
    for c := 0 to CHANNELS
      invariant forall k :: 0 <= k < c ==> sum[k] == (sum0[k] + src[at + k]) % U32
      invariant forall k :: c <= k < CHANNELS ==> sum[k] == sum0[k]
    {
      sum := sum[c := (sum[c] + src[at + c]) % U32];
    }
  }

  /** Subtraction first: the intermediate value may wrap below zero and back. */
  method SlidePixel(sum0: Sums, src: array<byte>, leaving: nat, entering: nat) returns (sum: Sums)
    requires leaving + CHANNELS <= src.Length && entering + CHANNELS <= src.Length
    ensures forall c :: 0 <= c < CHANNELS ==> sum[c] == ((sum0[c] - src[leaving + c]) % U32 + src[entering + c]) % U32
  {
    sum := sum0;
    for c := 0 to CHANNELS
      invariant forall k :: 0 <= k < c ==> sum[k] == ((sum0[k] - src[leaving + k]) % U32 + src[entering + k]) % U32
      invariant forall k :: c <= k < CHANNELS ==> sum[k] == sum0[k]
    {
      sum := sum[c := (sum[c] - src[leaving + c]) % U32];
      sum := sum[c := (sum[c] + src[entering + c]) % U32];
    }
  }

  method StorePixel(sum: Sums, window: nat, dst: array<byte>, at: nat)
    requires at + CHANNELS <= dst.Length && window > 0
    requires forall c :: 0 <= c < CHANNELS ==> 0 <= sum[c] / window < 256
    modifies dst
    ensures forall c :: 0 <= c < CHANNELS ==> dst[at + c] == sum[c] / window
    ensures forall k :: 0 <= k < dst.Length && !(at <= k < at + CHANNELS) ==> dst[k] == old(dst[k])
  {
    for c := 0 to CHANNELS
      invariant forall k :: 0 <= k < c ==> dst[at + k] == sum[k] / window
      invariant forall k :: 0 <= k < dst.Length && !(at <= k < at + CHANNELS) ==> dst[k] == old(dst[k])
    {
      dst[at + c] := sum[c] / window;
    }
  }

  lemma WrapStep(sum: nat, leaving: nat, entering: nat)
    ensures ((sum % U32 - leaving) % U32 + entering) % U32 == (sum - leaving + entering) % U32
  {
  }

  /** Sliding the window by one sample, with the wrap-around of the sum. */
  lemma Slide(line: seq<byte>, i: int, r: nat)
    requires line != []
    ensures Sum(line, i + 1 - r, i + r + 2) % U32 ==
            ((Sum(line, i - r, i + r + 1) % U32 - line[Clamp(i - r, |line|)]) % U32 +
              line[Clamp(i + r + 1, |line|)]) % U32
  {
    SumFront(line, i - r, i + r + 1);
    WrapStep(Sum(line, i - r, i + r + 1), line[Clamp(i - r, |line|)], line[Clamp(i + r + 1, |line|)]);
  }

  /** The stored quotient fits a byte however wide the window is. */
  lemma StoredFits(line: seq<byte>, i: int, r: nat)
    requires line != []
    ensures 0 <= Sum(line, i - r, i + r + 1) % U32 / (2 * r + 1) < 256
  {
    assert Box(line, i, r) < 256;
  }

  /** The sums hold the window around `i` of each channel of `src`. */
  ghost predicate Windowed(sum: Sums, src: seq<byte>, at: nat, step: nat, n: nat, lo: int, hi: int) {
    n > 0 && at + (n - 1) * step + CHANNELS <= |src| &&
    forall c :: 0 <= c < CHANNELS ==> sum[c] == Sum(LineOf(src, at, step, n, c), lo, hi) % U32
  }

  /** A sample of a line lies where the line says. */
  lemma LineAt(s: seq<byte>, at: nat, step: nat, n: nat, c: nat, i: nat)
    requires c < CHANNELS && i < n && at + (n - 1) * step + CHANNELS <= |s|
    ensures 0 <= at + i * step <= at + (n - 1) * step
    ensures LineOf(s, at, step, n, c)[i] == s[at + i * step + c]
  {
    Times(step, i, n - 1);
  }

  /** Pixels of a line do not overlap. */
  lemma Apart(pace: nat, i: nat, j: nat)
    requires pace >= CHANNELS && j < i
    ensures 0 <= j * pace && j * pace + CHANNELS <= i * pace
  {
    Times(pace, j + 1, i);
  }

  /** Adds position `i` to a window that ends just before it. */
  method Enter(sum0: Sums, src: array<byte>, at: nat, step: nat, n: nat, lo: int, i: int) returns (sum: Sums)
    requires lo <= i && Windowed(sum0, src[..], at, step, n, lo, i)
    ensures Windowed(sum, src[..], at, step, n, lo, i + 1)
  {
    hide Sum, LineOf;
    var index := Clamp(i, n);
    Times(step, index, n - 1);
    sum := AddPixel(sum0, src, at + index * step);
    forall c | 0 <= c < CHANNELS
      ensures sum[c] == Sum(LineOf(src[..], at, step, n, c), lo, i + 1) % U32
    {
      LineAt(src[..], at, step, n, c, index);
      Widen(LineOf(src[..], at, step, n, c), lo, i);
    }
  }

  lemma Widen(line: seq<byte>, lo: int, i: int)
    requires line != [] && lo <= i
    ensures Sum(line, lo, i + 1) % U32 == (Sum(line, lo, i) % U32 + line[Clamp(i, |line|)]) % U32
  {
  }

  /** The window centred on the first pixel. */
  method Prime(src: array<byte>, at: nat, step: nat, n: nat, r: nat) returns (sum: Sums)
    requires n > 0 && at + (n - 1) * step + CHANNELS <= src.Length
    ensures Windowed(sum, src[..], at, step, n, 0 - r, r + 1)
  {
    hide LineOf;
    sum := [0, 0, 0, 0];
    for i := 0 - r to r + 1
      invariant Windowed(sum, src[..], at, step, n, 0 - r, i)
    {
      sum := Enter(sum, src, at, step, n, 0 - r, i);
    }
  }

  lemma PixelPut(d: seq<byte>, before: seq<byte>, pace: nat, length: nat, i: nat, j: nat, c: nat)
    requires j <= i < length && pace >= CHANNELS && c < CHANNELS && (length - 1) * pace + CHANNELS <= |d| == |before|
    requires forall k :: 0 <= k < |d| && !(i * pace <= k < i * pace + CHANNELS) ==> d[k] == before[k]
    ensures 0 <= i * pace && i * pace + CHANNELS <= |d|
    ensures LineOf(d, 0, pace, length, c)[j] ==
            if j < i then LineOf(before, 0, pace, length, c)[j] else d[i * pace + c]
  {
    LineAt(d, 0, pace, length, c, j);
    LineAt(d, 0, pace, length, c, i);
    LineAt(before, 0, pace, length, c, j);
    if j < i {
      Apart(pace, i, j);
    }
  }

  method PutPixel(dst: array<byte>, pace: nat, length: nat, i: nat, sum: Sums, window: nat)
    requires i < length && pace >= CHANNELS && (length - 1) * pace + CHANNELS <= dst.Length && window > 0
    requires forall c :: 0 <= c < CHANNELS ==> 0 <= sum[c] / window < 256
    modifies dst
    ensures forall c :: 0 <= c < CHANNELS ==> LineOf(dst[..], 0, pace, length, c)[i] == sum[c] / window
    ensures forall j, c :: 0 <= j < i && 0 <= c < CHANNELS ==>
              LineOf(dst[..], 0, pace, length, c)[j] == LineOf(old(dst[..]), 0, pace, length, c)[j]
  {
    hide LineOf;
    Times(pace, i, length - 1);
    ghost var before := dst[..];
    StorePixel(sum, window, dst, i * pace);
    forall j, c | 0 <= j <= i && 0 <= c < CHANNELS
      ensures LineOf(dst[..], 0, pace, length, c)[j] ==
              if j < i then LineOf(before, 0, pace, length, c)[j] else sum[c] / window
    {
      PixelPut(dst[..], before, pace, length, i, j, c);
    }
  }

  /** Moves the window on by one position. */
  method SlideWindow(sum0: Sums, src: array<byte>, at: nat, step: nat, n: nat, i: nat, r: nat) returns (sum: Sums)
    requires Windowed(sum0, src[..], at, step, n, i - r, i + r + 1)
    ensures Windowed(sum, src[..], at, step, n, i + 1 - r, i + r + 2)
  {
    hide Sum, LineOf;
    var leaving, entering := Clamp(i - r, n), Clamp(i + r + 1, n);
    Times(step, leaving, n - 1);
    Times(step, entering, n - 1);
    sum := SlidePixel(sum0, src, at + leaving * step, at + entering * step);
    forall c | 0 <= c < CHANNELS
      ensures sum[c] == Sum(LineOf(src[..], at, step, n, c), i + 1 - r, i + r + 2) % U32
    {
      SlideChannel(src[..], at, step, n, i, r, c);
    }
  }

  lemma SlideChannel(s: seq<byte>, at: nat, step: nat, n: nat, i: int, r: nat, c: nat)
    requires c < CHANNELS && n > 0 && at + (n - 1) * step + CHANNELS <= |s|
    ensures var leaving, entering := at + Clamp(i - r, n) * step + c, at + Clamp(i + r + 1, n) * step + c;
            var line := LineOf(s, at, step, n, c);
            && 0 <= leaving < |s| && 0 <= entering < |s|
            && Sum(line, i + 1 - r, i + r + 2) % U32 ==
               ((Sum(line, i - r, i + r + 1) % U32 - s[leaving]) % U32 + s[entering]) % U32
  {
    hide Sum, LineOf;
    LineAt(s, at, step, n, c, Clamp(i - r, n));
    LineAt(s, at, step, n, c, Clamp(i + r + 1, n));
    Slide(LineOf(s, at, step, n, c), i, r);
  }

  /** One pass over one line: every channel of every pixel becomes its box. */
  method BoxBlurLine(src: array<byte>, at: nat, dst: array<byte>, length: nat, srcStride: nat,
        dstStride: nat, radius: nat)
    requires src != dst && length > 0 && dstStride > 0
    requires at + (length - 1) * (srcStride * CHANNELS) + CHANNELS <= src.Length
    requires (length - 1) * (dstStride * CHANNELS) + CHANNELS <= dst.Length
    modifies dst
    ensures forall i, c :: 0 <= i < length && 0 <= c < CHANNELS ==>
              LineOf(dst[..], 0, dstStride * CHANNELS, length, c)[i] ==
              Box(LineOf(src[..], at, srcStride * CHANNELS, length, c), i, radius)
  {
    hide LineOf, Sum;
    var window := radius * 2 + 1;
    var step, pace := srcStride * CHANNELS, dstStride * CHANNELS;
    var sum := Prime(src, at, step, length, radius);
    for i := 0 to length
      invariant Windowed(sum, src[..], at, step, length, i - radius, i + radius + 1)
      invariant forall j, c :: 0 <= j < i && 0 <= c < CHANNELS ==>
                  LineOf(dst[..], 0, pace, length, c)[j] == Box(LineOf(src[..], at, step, length, c), j, radius)
    {
      forall c | 0 <= c < CHANNELS
        ensures 0 <= sum[c] / window < 256 && sum[c] / window == Box(LineOf(src[..], at, step, length, c), i, radius)
      {
        StoredFits(LineOf(src[..], at, step, length, c), i, radius);
      }
      PutPixel(dst, pace, length, i, sum, window);
      sum := SlideWindow(sum, src, at, step, length, i, radius);
    }
  }

  // ------------------------------------------------------------- the image

  /** Rows of `stride` bytes, of which the first 4 * width are pixels. */
  datatype Geometry = Geometry(width: nat, height: nat, stride: nat) {
    predicate Sane() { width > 0 && height > 0 && width * CHANNELS <= stride && stride % CHANNELS == 0 }

    predicate Fits(n: nat) { Sane() && (height - 1) * stride + width * CHANNELS <= n }

    function Row(k: nat): nat requires Sane() { k / stride }

    /** Byte offset inside the row, and the pixel and channel it falls in. */
    function Offset(k: nat): nat requires Sane() { k % stride }

    function Pixel(k: nat): nat requires Sane() { Offset(k) / CHANNELS }

    function Channel(k: nat): nat requires Sane() { Offset(k) % CHANNELS }

    /** Everything else is row padding, or lies past the last row. */
    predicate Holds(k: nat) requires Sane() { Row(k) < height && Offset(k) < width * CHANNELS }

    function At(y: nat, offset: nat): nat { y * stride + offset }
  }

  lemma Coordinates(g: Geometry, k: nat)
    requires g.Sane()
    ensures k == g.At(g.Row(k), g.Offset(k)) && g.Offset(k) < g.stride
    ensures k == g.At(g.Row(k), g.Pixel(k) * CHANNELS + g.Channel(k)) && g.Channel(k) < CHANNELS
  {
  }

  lemma Located(g: Geometry, y: nat, offset: nat)
    requires g.Sane() && offset < g.stride
    ensures g.Row(g.At(y, offset)) == y && g.Offset(g.At(y, offset)) == offset
  {
    Division(g.At(y, offset), g.stride, y, offset);
  }

  /** Channel `c` along row `y`, and along column `x`. */
  function RowLine(s: seq<byte>, g: Geometry, y: nat, c: nat): (line: seq<byte>)
    requires g.Fits(|s|) && y < g.height && c < CHANNELS
    ensures |line| == g.width
  {
    Times(g.stride, y, g.height - 1);
    LineOf(s, y * g.stride, CHANNELS, g.width, c)
  }

  function ColumnLine(s: seq<byte>, g: Geometry, x: nat, c: nat): (line: seq<byte>)
    requires g.Fits(|s|) && x < g.width && c < CHANNELS
    ensures |line| == g.height
  {
    LineOf(s, x * CHANNELS, g.stride, g.height, c)
  }

  function RowByte(s: seq<byte>, g: Geometry, r: nat, k: nat): byte
    requires g.Fits(|s|) && k < |s|
  {
    if g.Holds(k) then Box(RowLine(s, g, g.Row(k), g.Channel(k)), g.Pixel(k), r) else s[k]
  }

  function ColumnByte(s: seq<byte>, g: Geometry, r: nat, k: nat): byte
    requires g.Fits(|s|) && k < |s|
  {
    if g.Holds(k) then Box(ColumnLine(s, g, g.Pixel(k), g.Channel(k)), g.Row(k), r) else s[k]
  }

  function RowPass(s: seq<byte>, g: Geometry, r: nat): (t: seq<byte>)
    requires g.Fits(|s|)
    ensures |t| == |s|
  {
    seq(|s|, k requires 0 <= k < |s| => RowByte(s, g, r, k))
  }

  function ColumnPass(s: seq<byte>, g: Geometry, r: nat): (t: seq<byte>)
    requires g.Fits(|s|)
    ensures |t| == |s|
  {
    seq(|s|, k requires 0 <= k < |s| => ColumnByte(s, g, r, k))
  }

  /** `passes` times every row, then every column. */
  function Blurred(s: seq<byte>, g: Geometry, r: nat, passes: nat): (t: seq<byte>)
    requires g.Fits(|s|)
    ensures |t| == |s|
  {
    if passes == 0 then s
    else ColumnPass(RowPass(Blurred(s, g, r, passes - 1), g, r), g, r)
  }

  method Memcpy(dst: array<byte>, to: nat, src: array<byte>, from: nat, n: nat)
    requires dst != src && to + n <= dst.Length && from + n <= src.Length
    modifies dst
    ensures Patched(dst[..], old(dst[..]), to, src[from..from + n])
  {
    for i := 0 to n
      invariant forall k :: 0 <= k < dst.Length ==>
                dst[k] == if to <= k < to + i then src[from + k - to] else old(dst[k])
    {
      dst[to + i] := src[from + i];
    }
  }

  /** Rows above `y` are blurred, the others as they were. */
  ghost predicate RowsDone(d: seq<byte>, s: seq<byte>, g: Geometry, r: nat, y: nat) {
    |d| == |s| && g.Fits(|s|) &&
    forall k :: 0 <= k < |s| ==> d[k] == if g.Row(k) < y then RowByte(s, g, r, k) else s[k]
  }

  lemma RowUntouched(d: seq<byte>, s: seq<byte>, g: Geometry, r: nat, y: nat, c: nat)
    requires RowsDone(d, s, g, r, y) && y < g.height && c < CHANNELS
    ensures RowLine(d, g, y, c) == RowLine(s, g, y, c)
  {
    hide RowByte, LineOf;
    forall i | 0 <= i < g.width
      ensures RowLine(d, g, y, c)[i] == RowLine(s, g, y, c)[i]
    {
      RowByteAt(d, g, y, c, i);
      RowByteAt(s, g, y, c, i);
      Located(g, y, i * CHANNELS + c);
    }
  }

  lemma RowByteAt(s: seq<byte>, g: Geometry, y: nat, c: nat, i: nat)
    requires g.Fits(|s|) && y < g.height && c < CHANNELS && i < g.width
    ensures var k := g.At(y, i * CHANNELS + c); 0 <= k < |s| && RowLine(s, g, y, c)[i] == s[k]
  {
    hide LineOf;
    var at := y * g.stride;
    Times(g.stride, y, g.height - 1);
    LineAt(s, at, CHANNELS, g.width, c, i);
  }

  lemma InRow(g: Geometry, y: nat, k: nat)
    requires g.Sane() && y < g.height
    ensures 0 <= y * g.stride
    ensures y * g.stride <= k < y * g.stride + g.width * CHANNELS <==> g.Row(k) == y && g.Holds(k)
    ensures g.Row(k) == y ==> k - y * g.stride == g.Pixel(k) * CHANNELS + g.Channel(k)
  {
    Coordinates(g, k);
    if y * g.stride <= k < y * g.stride + g.width * CHANNELS {
      Division(k, g.stride, y, k - y * g.stride);
    }
  }

  /** `d` is `before` with its bytes from `at` on overwritten by `piece`. */
  ghost predicate Patched(d: seq<byte>, before: seq<byte>, at: nat, piece: seq<byte>) {
    |d| == |before| && at + |piece| <= |d| &&
    forall k :: 0 <= k < |d| ==> d[k] == if at <= k < at + |piece| then piece[k - at] else before[k]
  }

  lemma RowStoredAt(d: seq<byte>, before: seq<byte>, scratch: seq<byte>, g: Geometry, y: nat, k: nat)
    requires g.Fits(|d|) && y < g.height && |scratch| == g.width * CHANNELS && k < |d|
    requires 0 <= y * g.stride && Patched(d, before, y * g.stride, scratch)
    ensures d[k] == if g.Row(k) == y && g.Holds(k)
                    then LineOf(scratch, 0, CHANNELS, g.width, g.Channel(k))[g.Pixel(k)]
                    else before[k]
  {
    InRow(g, y, k);
    Coordinates(g, k);
    if g.Row(k) == y && g.Holds(k) {
      LineAt(scratch, 0, CHANNELS, g.width, g.Channel(k), g.Pixel(k));
    }
  }

  lemma RowDone(d: seq<byte>, before: seq<byte>, scratch: seq<byte>, s: seq<byte>, g: Geometry, r: nat, y: nat)
    requires g.Fits(|s|) && RowsDone(before, s, g, r, y) && y < g.height
    requires |d| == |before| == |s| && |scratch| == g.width * CHANNELS
    requires 0 <= y * g.stride && Patched(d, before, y * g.stride, scratch)
    requires forall i, c :: 0 <= i < g.width && 0 <= c < CHANNELS ==>
               LineOf(scratch, 0, CHANNELS, g.width, c)[i] == Box(RowLine(before, g, y, c), i, r)
    ensures RowsDone(d, s, g, r, y + 1)
  {
    hide Patched, LineOf, RowLine, Box;
    forall k | 0 <= k < |s|
      ensures d[k] == if g.Row(k) < y + 1 then RowByte(s, g, r, k) else s[k]
    {
      RowStoredAt(d, before, scratch, g, y, k);
      if g.Row(k) == y && g.Holds(k) {
        RowUntouched(before, s, g, r, y, g.Channel(k));
      }
    }
  }

  /** The first `n` bytes hold every line of that length whole. */
  lemma LineOfFront(s: seq<byte>, n: nat, c: nat)
    requires c < CHANNELS && n > 0 && n * CHANNELS <= |s|
    ensures LineOf(s[..n * CHANNELS], 0, CHANNELS, n, c) == LineOf(s, 0, CHANNELS, n, c)
  {
  }

  method BlurRow(data: array<byte>, scratch: array<byte>, g: Geometry, r: nat, y: nat, ghost s: seq<byte>)
    requires data != scratch && g.Fits(data.Length) && scratch.Length >= g.width * CHANNELS
    requires y < g.height && |s| == data.Length && RowsDone(data[..], s, g, r, y)
    modifies data, scratch
    ensures RowsDone(data[..], s, g, r, y + 1)
  {
    hide LineOf, Box, RowsDone;
    assert data.Length == |data[..]|;
    Times(g.stride, y, g.height - 1);
    ghost var before := data[..];
    BoxBlurLine(data, y * g.stride, scratch, g.width, 1, 1, r);
    assert data[..] == before;
    Memcpy(data, y * g.stride, scratch, 0, g.width * CHANNELS);
    forall c | 0 <= c < CHANNELS
      ensures LineOf(scratch[..g.width * CHANNELS], 0, CHANNELS, g.width, c) ==
              LineOf(scratch[..], 0, CHANNELS, g.width, c)
    {
      LineOfFront(scratch[..], g.width, c);
    }
    RowDone(data[..], before, scratch[..g.width * CHANNELS], s, g, r, y);
  }

  /** Columns left of `x` are blurred, the rest as it was. */
  ghost predicate ColumnsDone(d: seq<byte>, s: seq<byte>, g: Geometry, r: nat, x: nat) {
    |d| == |s| && g.Fits(|s|) &&
    forall k :: 0 <= k < |s| ==> d[k] == if g.Pixel(k) < x then ColumnByte(s, g, r, k) else s[k]
  }

  /** Of column `x`, the pixels above row `y` have been copied back. */
  ghost predicate ColumnPart(d: seq<byte>, before: seq<byte>, scratch: seq<byte>, g: Geometry, x: nat, y: nat) {
    g.Fits(|d|) && |d| == |before| && |scratch| >= g.height * CHANNELS &&
    forall k :: 0 <= k < |d| ==>
      d[k] == if g.Holds(k) && g.Pixel(k) == x && g.Row(k) < y
              then LineOf(scratch, 0, CHANNELS, g.height, g.Channel(k))[g.Row(k)]
              else before[k]
  }

  lemma InCell(g: Geometry, x: nat, y: nat, k: nat)
    requires g.Sane() && x < g.width
    ensures 0 <= y * g.stride
    ensures x * CHANNELS + y * g.stride <= k < x * CHANNELS + y * g.stride + CHANNELS <==>
            g.Row(k) == y && g.Pixel(k) == x
    ensures g.Row(k) == y && g.Pixel(k) == x ==> k - (x * CHANNELS + y * g.stride) == g.Channel(k)
  {
    Coordinates(g, k);
    if x * CHANNELS + y * g.stride <= k < x * CHANNELS + y * g.stride + CHANNELS {
      Division(k, g.stride, y, k - y * g.stride);
    }
  }

  lemma CellFits(g: Geometry, n: nat, x: nat, y: nat)
    requires g.Fits(n) && x < g.width && y < g.height
    ensures 0 <= x * CHANNELS + y * g.stride && x * CHANNELS + y * g.stride + CHANNELS <= n
    ensures x * CHANNELS + (g.height - 1) * g.stride + CHANNELS <= n
  {
    Times(g.stride, y, g.height - 1);
  }

  lemma CellStored(d: seq<byte>, mid: seq<byte>, before: seq<byte>, scratch: seq<byte>, g: Geometry, x: nat, y: nat)
    requires ColumnPart(mid, before, scratch, g, x, y) && x < g.width && y < g.height &&
             |scratch| >= g.height * CHANNELS
    requires 0 <= y * g.stride &&
             Patched(d, mid, x * CHANNELS + y * g.stride, scratch[y * CHANNELS..y * CHANNELS + CHANNELS])
    ensures ColumnPart(d, before, scratch, g, x, y + 1)
  {
    forall k | 0 <= k < |d|
      ensures d[k] == if g.Holds(k) && g.Pixel(k) == x && g.Row(k) < y + 1
                      then LineOf(scratch, 0, CHANNELS, g.height, g.Channel(k))[g.Row(k)] else before[k]
    {
      InCell(g, x, y, k);
      Coordinates(g, k);
      if g.Row(k) == y && g.Pixel(k) == x {
        LineAt(scratch, 0, CHANNELS, g.height, g.Channel(k), y);
      }
    }
  }

  lemma ColumnUntouched(d: seq<byte>, s: seq<byte>, g: Geometry, r: nat, x: nat, c: nat)
    requires g.Fits(|s|) && ColumnsDone(d, s, g, r, x) && x < g.width && c < CHANNELS
    ensures ColumnLine(d, g, x, c) == ColumnLine(s, g, x, c)
  {
    hide ColumnByte;
    forall i | 0 <= i < g.height
      ensures ColumnLine(d, g, x, c)[i] == ColumnLine(s, g, x, c)[i]
    {
      LineAt(d, x * CHANNELS, g.stride, g.height, c, i);
      LineAt(s, x * CHANNELS, g.stride, g.height, c, i);
      Located(g, i, x * CHANNELS + c);
    }
  }

  lemma ColumnDone(d: seq<byte>, before: seq<byte>, scratch: seq<byte>, s: seq<byte>, g: Geometry, r: nat, x: nat)
    requires g.Fits(|s|) && |before| == |s| && ColumnsDone(before, s, g, r, x) && x < g.width
    requires |scratch| >= g.height * CHANNELS && ColumnPart(d, before, scratch, g, x, g.height)
    requires forall i, c :: 0 <= i < g.height && 0 <= c < CHANNELS ==>
               LineOf(scratch, 0, CHANNELS, g.height, c)[i] == Box(ColumnLine(before, g, x, c), i, r)
    ensures ColumnsDone(d, s, g, r, x + 1)
  {
    hide LineOf, ColumnLine, Box;
    forall k | 0 <= k < |s|
      ensures d[k] == if g.Pixel(k) < x + 1 then ColumnByte(s, g, r, k) else s[k]
    {
      Coordinates(g, k);
      if g.Pixel(k) == x && g.Holds(k) {
        ColumnUntouched(before, s, g, r, x, g.Channel(k));
      }
    }
  }

  method BlurColumn(data: array<byte>, scratch: array<byte>, g: Geometry, r: nat, x: nat, ghost s: seq<byte>)
    requires data != scratch && g.Fits(data.Length) && scratch.Length >= g.height * CHANNELS
    requires x < g.width && |s| == data.Length && ColumnsDone(data[..], s, g, r, x)
    modifies data, scratch
    ensures ColumnsDone(data[..], s, g, r, x + 1)
  {
    hide LineOf, Box, ColumnsDone, ColumnPart;
    CellFits(g, data.Length, x, 0);
    ghost var before := data[..];
    assert g.stride / CHANNELS * CHANNELS == g.stride;
    BoxBlurLine(data, x * CHANNELS, scratch, g.height, g.stride / CHANNELS, 1, r);
    assert data[..] == before;
    ghost var line := scratch[..];
    NothingStored(before, line, g, x);
    for y := 0 to g.height
      invariant scratch[..] == line && ColumnPart(data[..], before, line, g, x, y)
      modifies data
    {
      CellFits(g, data.Length, x, y);
      InCell(g, x, y, 0);
      ghost var mid := data[..];
      Memcpy(data, x * CHANNELS + y * g.stride, scratch, y * CHANNELS, CHANNELS);
      assert line[y * CHANNELS..y * CHANNELS + CHANNELS] == scratch[y * CHANNELS..y * CHANNELS + CHANNELS];
      CellStored(data[..], mid, before, line, g, x, y);
    }
    ColumnDone(data[..], before, line, s, g, r, x);
  }

  lemma NothingStored(d: seq<byte>, scratch: seq<byte>, g: Geometry, x: nat)
    requires g.Fits(|d|) && |scratch| >= g.height * CHANNELS
    ensures ColumnPart(d, d, scratch, g, x, 0)
  {
  }

  // ------------------------------------------------------------ the routine

  /** What the routine leaves of an image, given room for its scratch line. */
  function Softened(s: seq<byte>, g: Geometry, radius: nat, passes: nat): seq<byte>
    requires g.Fits(|s|)
  {
    Blurred(s, g, Capped(radius, g.width, g.height), passes)
  }

  /** Capped to half the shorter side, but never below one. */
  function Capped(radius: nat, width: nat, height: nat): nat {
    var shorter := if width < height then width else height;
    var most := if shorter / 2 < 1 then 1 else shorter / 2;
    if radius > most then most else radius
  }

  lemma RowsEnds(d: seq<byte>, s: seq<byte>, g: Geometry, r: nat)
    requires g.Fits(|s|)
    ensures RowsDone(s, s, g, r, 0)
    ensures |d| == |s| && RowsDone(d, s, g, r, g.height) ==> d == RowPass(s, g, r)
  {
  }

  lemma ColumnsEnds(d: seq<byte>, s: seq<byte>, g: Geometry, r: nat)
    requires g.Fits(|s|)
    ensures ColumnsDone(s, s, g, r, 0)
    ensures |d| == |s| && ColumnsDone(d, s, g, r, g.width) ==> d == ColumnPass(s, g, r)
  {
    if |d| == |s| && ColumnsDone(d, s, g, r, g.width) {
      forall k | 0 <= k < |s|
        ensures d[k] == ColumnByte(s, g, r, k)
      {
        Coordinates(g, k);
      }
    }
  }

  method BlurPass(data: array<byte>, scratch: array<byte>, g: Geometry, r: nat)
    requires data != scratch && g.Fits(data.Length)
    requires scratch.Length >= g.width * CHANNELS && scratch.Length >= g.height * CHANNELS
    modifies data, scratch
    ensures data[..] == ColumnPass(RowPass(old(data[..]), g, r), g, r)
  {
    hide RowsDone, ColumnsDone, RowPass, ColumnPass;
    ghost var s := data[..];
    RowsEnds(s, s, g, r);
    for y := 0 to g.height
      invariant RowsDone(data[..], s, g, r, y)
    {
      BlurRow(data, scratch, g, r, y, s);
    }
    RowsEnds(data[..], s, g, r);
    ghost var t := data[..];
    ColumnsEnds(t, t, g, r);
    for x := 0 to g.width
      invariant ColumnsDone(data[..], t, g, r, x)
    {
      BlurColumn(data, scratch, g, r, x, t);
    }
    ColumnsEnds(data[..], t, g, r);
  }

  /** hikari_blur_argb8888. `memory` is the allocator's answer. The stride has to
      be a whole number of pixels, as the routine says, and the buffer an image. */
  method Blur(data: array?<byte>, width: int, height: int, stride: int, radius: int, passes: int, memory: bool)
    returns (ok: bool)
    requires data != null && width > 0 && height > 0 && stride >= width * CHANNELS ==>
               Geometry(width, height, stride).Fits(data.Length)
    modifies data
    ensures ok <==> data != null && width > 0 && height > 0 && stride >= width * CHANNELS
                    && (radius <= 0 || passes <= 0 || memory)
    ensures data != null ==>
              data[..] == if ok && radius > 0 && passes > 0
                          then Softened(old(data[..]), Geometry(width, height, stride), radius, passes)
                          else old(data[..])
  {
    if data == null || width <= 0 || height <= 0 || stride < width * CHANNELS {
      return false;
    }
    if radius <= 0 || passes <= 0 {
      return true;
    }
    var maxRadius := (if width < height then width else height) / 2;
    if maxRadius < 1 {
      maxRadius := 1;
    }
    var r := if radius > maxRadius then maxRadius else radius;
    if !memory {
      return false;
    }
    var scratch := new byte[(if width > height then width else height) * CHANNELS];
    var g := Geometry(width, height, stride);
    for pass := 0 to passes
      invariant data[..] == Blurred(old(data[..]), g, r, pass)
    {
      BlurPass(data, scratch, g, r);
    }
    return true;
  }

  // ------------------------------------------- what a blurred picture keeps

  /** Channel `c` of `s` lies below channel `d` of `t`, pixel by pixel. */
  ghost predicate Below(s: seq<byte>, c: nat, t: seq<byte>, d: nat, g: Geometry) {
    g.Fits(|s|) && g.Fits(|t|) && c < CHANNELS && d < CHANNELS &&
    forall y, x :: 0 <= y < g.height && 0 <= x < g.width ==> Sample(s, g, y, x, c) <= Sample(t, g, y, x, d)
  }

  function Sample(s: seq<byte>, g: Geometry, y: nat, x: nat, c: nat): byte
    requires g.Fits(|s|) && y < g.height && x < g.width && c < CHANNELS
  {
    CellFits(g, |s|, x, y);
    s[x * CHANNELS + y * g.stride + c]
  }

  /** A pass, seen sample by sample. */
  lemma PassAt(s: seq<byte>, g: Geometry, r: nat, y: nat, x: nat, c: nat)
    requires g.Fits(|s|) && y < g.height && x < g.width && c < CHANNELS
    ensures Sample(RowPass(s, g, r), g, y, x, c) == Box(RowLine(s, g, y, c), x, r)
    ensures Sample(ColumnPass(s, g, r), g, y, x, c) == Box(ColumnLine(s, g, x, c), y, r)
  {
    CellFits(g, |s|, x, y);
    var k := x * CHANNELS + y * g.stride + c;
    InCell(g, x, y, k);
    Coordinates(g, k);
  }

  /** A radius within half of both sides is used as asked; any other becomes the
      largest that is, or one where not even one is. */
  lemma CappedIsLargest(radius: nat, width: nat, height: nat)
    ensures 2 * radius <= width && 2 * radius <= height ==> Capped(radius, width, height) == radius
    ensures radius >= 1 ==> 1 <= Capped(radius, width, height) <= radius
    ensures var r := Capped(radius, width, height); r > 1 ==> 2 * r <= width && 2 * r <= height
    ensures var r := Capped(radius, width, height); r < radius ==> 2 * (r + 1) > width || 2 * (r + 1) > height
  {
  }

  /** Only an image both of whose sides exceed sixteen million pixels lets a
      radius through that the sum cannot carry. */
  lemma CappedIsExactIff(radius: nat, width: nat, height: nat)
    ensures Capped(radius, width, height) <= RADIUS_EXACT <==>
            radius <= RADIUS_EXACT || width <= SIDE_EXACT || height <= SIDE_EXACT
  {
  }

  /** A whole blur is passes of clamped means, rows first; bytes that are not
      pixels keep their value. */
  lemma PassIsMean(s: seq<byte>, g: Geometry, r: nat, y: nat, x: nat, c: nat)
    requires g.Fits(|s|) && y < g.height && x < g.width && c < CHANNELS && r <= RADIUS_EXACT
    ensures Sample(RowPass(s, g, r), g, y, x, c) == Mean(RowLine(s, g, y, c), x, r)
    ensures Sample(ColumnPass(s, g, r), g, y, x, c) == Mean(ColumnLine(s, g, x, c), y, r)
  {
    PassAt(s, g, r, y, x, c);
    hide RowPass, ColumnPass, Box, Mean, LineOf, Sample;
    BoxIsMean(RowLine(s, g, y, c), x, r);
    BoxIsMean(ColumnLine(s, g, x, c), y, r);
  }

  lemma {:induction false} PaddingIsKept(s: seq<byte>, g: Geometry, r: nat, passes: nat, k: nat)
    requires g.Fits(|s|) && k < |s| && !g.Holds(k)
    ensures Blurred(s, g, r, passes)[k] == s[k]
  {
    if passes == 0 {
    } else {
      PaddingIsKept(s, g, r, passes - 1, k);
    }
  }

  lemma RowLineAt(s: seq<byte>, g: Geometry, y: nat, x: nat, c: nat)
    requires g.Fits(|s|) && y < g.height && x < g.width && c < CHANNELS
    ensures RowLine(s, g, y, c)[x] == Sample(s, g, y, x, c)
  {
    var at := y * g.stride;
    Times(g.stride, y, g.height - 1);
    LineAt(s, at, CHANNELS, g.width, c, x);
  }

  lemma ColumnLineAt(s: seq<byte>, g: Geometry, y: nat, x: nat, c: nat)
    requires g.Fits(|s|) && y < g.height && x < g.width && c < CHANNELS
    ensures ColumnLine(s, g, x, c)[y] == Sample(s, g, y, x, c)
  {
    LineAt(s, x * CHANNELS, g.stride, g.height, c, y);
  }

  lemma MeanMonotone(a: seq<byte>, b: seq<byte>, i: int, r: nat)
    requires |a| == |b| > 0 && forall j :: 0 <= j < |a| ==> a[j] <= b[j]
    ensures Mean(a, i, r) <= Mean(b, i, r)
  {
    SumMonotone(a, b, i - r, i + r + 1);
    QuotientMonotone(Sum(a, i - r, i + r + 1), Sum(b, i - r, i + r + 1), 2 * r + 1);
  }

  lemma RowPassMonotone(s: seq<byte>, c: nat, t: seq<byte>, d: nat, g: Geometry, r: nat)
    requires Below(s, c, t, d, g) && r <= RADIUS_EXACT
    ensures Below(RowPass(s, g, r), c, RowPass(t, g, r), d, g)
  {
    hide Sample, RowLine, RowPass, Mean;
    forall y, x | 0 <= y < g.height && 0 <= x < g.width
      ensures Sample(RowPass(s, g, r), g, y, x, c) <= Sample(RowPass(t, g, r), g, y, x, d)
    {
      PassIsMean(s, g, r, y, x, c);
      PassIsMean(t, g, r, y, x, d);
      forall j | 0 <= j < g.width
        ensures RowLine(s, g, y, c)[j] <= RowLine(t, g, y, d)[j]
      {
        RowLineAt(s, g, y, j, c);
        RowLineAt(t, g, y, j, d);
      }
      MeanMonotone(RowLine(s, g, y, c), RowLine(t, g, y, d), x, r);
    }
  }

  lemma ColumnPassMonotone(s: seq<byte>, c: nat, t: seq<byte>, d: nat, g: Geometry, r: nat)
    requires Below(s, c, t, d, g) && r <= RADIUS_EXACT
    ensures Below(ColumnPass(s, g, r), c, ColumnPass(t, g, r), d, g)
  {
    hide Sample, ColumnLine, ColumnPass, Mean;
    forall y, x | 0 <= y < g.height && 0 <= x < g.width
      ensures Sample(ColumnPass(s, g, r), g, y, x, c) <= Sample(ColumnPass(t, g, r), g, y, x, d)
    {
      PassIsMean(s, g, r, y, x, c);
      PassIsMean(t, g, r, y, x, d);
      forall j | 0 <= j < g.height
        ensures ColumnLine(s, g, x, c)[j] <= ColumnLine(t, g, x, d)[j]
      {
        ColumnLineAt(s, g, j, x, c);
        ColumnLineAt(t, g, j, x, d);
      }
      MeanMonotone(ColumnLine(s, g, x, c), ColumnLine(t, g, x, d), y, r);
    }
  }

  /** Blurring keeps one picture, or one channel, below another. */
  lemma {:induction false} BlurredMonotone(s: seq<byte>, c: nat, t: seq<byte>, d: nat, g: Geometry, r: nat, passes: nat)
    requires Below(s, c, t, d, g) && r <= RADIUS_EXACT
    ensures Below(Blurred(s, g, r, passes), c, Blurred(t, g, r, passes), d, g)
  {
    if passes == 0 {
    } else {
      BlurredMonotone(s, c, t, d, g, r, passes - 1);
      RowPassMonotone(Blurred(s, g, r, passes - 1), c, Blurred(t, g, r, passes - 1), d, g, r);
      ColumnPassMonotone(RowPass(Blurred(s, g, r, passes - 1), g, r), c,
        RowPass(Blurred(t, g, r, passes - 1), g, r), d, g, r);
    }
  }

  /** Every colour at most the alpha: valid premultiplied ARGB. */
  ghost predicate Premultiplied(s: seq<byte>, g: Geometry) {
    Below(s, 0, s, 3, g) && Below(s, 1, s, 3, g) && Below(s, 2, s, 3, g)
  }

  lemma BlurredStaysPremultiplied(s: seq<byte>, g: Geometry, r: nat, passes: nat)
    requires Premultiplied(s, g) && g.Fits(|s|) && r <= RADIUS_EXACT
    ensures Premultiplied(Blurred(s, g, r, passes), g)
  {
    BlurredMonotone(s, 0, s, 3, g, r, passes);
    BlurredMonotone(s, 1, s, 3, g, r, passes);
    BlurredMonotone(s, 2, s, 3, g, r, passes);
  }

  /** Channel `c` lies between `least` and `most` everywhere. */
  ghost predicate Within(s: seq<byte>, c: nat, g: Geometry, least: nat, most: nat) {
    g.Fits(|s|) && c < CHANNELS &&
    forall y, x :: 0 <= y < g.height && 0 <= x < g.width ==> least <= Sample(s, g, y, x, c) <= most
  }

  lemma MeanWithin(line: seq<byte>, i: int, r: nat, least: nat, most: nat)
    requires line != [] && forall j :: 0 <= j < |line| ==> least <= line[j] <= most
    ensures least <= Mean(line, i, r) <= most
  {
    var sum, n := Sum(line, i - r, i + r + 1), 2 * r + 1;
    SumBounds(line, i - r, i + r + 1, least, most);
    Quotient(sum, n, most);
    Division(least * n, n, least, 0);
    QuotientMonotone(least * n, sum, n);
  }

  /** Nothing gets darker than the darkest or brighter than the brightest sample. */
  lemma {:induction false} BlurredWithin(s: seq<byte>, c: nat, g: Geometry, least: nat, most: nat, r: nat, passes: nat)
    requires Within(s, c, g, least, most) && r <= RADIUS_EXACT
    ensures Within(Blurred(s, g, r, passes), c, g, least, most)
  {
    if passes == 0 {
    } else {
      BlurredWithin(s, c, g, least, most, r, passes - 1);
      var before := Blurred(s, g, r, passes - 1);
      PassWithin(before, c, g, least, most, r);
      PassWithin(RowPass(before, g, r), c, g, least, most, r);
    }
  }

  lemma PassWithin(s: seq<byte>, c: nat, g: Geometry, least: nat, most: nat, r: nat)
    requires Within(s, c, g, least, most) && r <= RADIUS_EXACT
    ensures Within(RowPass(s, g, r), c, g, least, most)
    ensures Within(ColumnPass(s, g, r), c, g, least, most)
  {
    hide Sample, RowLine, ColumnLine, RowPass, ColumnPass, Mean;
    forall y, x | 0 <= y < g.height && 0 <= x < g.width
      ensures least <= Sample(RowPass(s, g, r), g, y, x, c) <= most
      ensures least <= Sample(ColumnPass(s, g, r), g, y, x, c) <= most
    {
      PassIsMean(s, g, r, y, x, c);
      forall j | 0 <= j < g.width
        ensures least <= RowLine(s, g, y, c)[j] <= most
      {
        RowLineAt(s, g, y, j, c);
      }
      forall j | 0 <= j < g.height
        ensures least <= ColumnLine(s, g, x, c)[j] <= most
      {
        ColumnLineAt(s, g, j, x, c);
      }
      MeanWithin(RowLine(s, g, y, c), x, r, least, most);
      MeanWithin(ColumnLine(s, g, x, c), y, r, least, most);
    }
  }

  // ---------------------------------------------------------- of the routine

  /** Channel by channel, `t` is the clamped mean along the rows of `s`, and
      along its columns. */
  ghost predicate RowMeans(s: seq<byte>, t: seq<byte>, g: Geometry, r: nat) {
    g.Fits(|s|) && |t| == |s| &&
    forall y, x, c :: 0 <= y < g.height && 0 <= x < g.width && 0 <= c < CHANNELS ==>
      Sample(t, g, y, x, c) == Mean(RowLine(s, g, y, c), x, r)
  }

  ghost predicate ColumnMeans(s: seq<byte>, t: seq<byte>, g: Geometry, r: nat) {
    g.Fits(|s|) && |t| == |s| &&
    forall y, x, c :: 0 <= y < g.height && 0 <= x < g.width && 0 <= c < CHANNELS ==>
      Sample(t, g, y, x, c) == Mean(ColumnLine(s, g, x, c), y, r)
  }

  /** Each pass of the routine is a mean along the rows and one along the
      columns, on every image with a side of at most SIDE_EXACT. */
  lemma SoftenedIsMean(s: seq<byte>, g: Geometry, radius: nat, passes: nat)
    requires g.Fits(|s|) && (radius <= RADIUS_EXACT || g.width <= SIDE_EXACT || g.height <= SIDE_EXACT)
    ensures Softened(s, g, radius, 0) == s
    ensures var r := Capped(radius, g.width, g.height);
            var before, after := Softened(s, g, radius, passes), Softened(s, g, radius, passes + 1);
            exists mid :: RowMeans(before, mid, g, r) && ColumnMeans(mid, after, g, r)
  {
    hide Sample, RowLine, ColumnLine, RowPass, ColumnPass, Mean, Capped;
    CappedIsExactIff(radius, g.width, g.height);
    var r, before := Capped(radius, g.width, g.height), Softened(s, g, radius, passes);
    var mid := RowPass(before, g, r);
    forall y, x, c | 0 <= y < g.height && 0 <= x < g.width && 0 <= c < CHANNELS
      ensures Sample(mid, g, y, x, c) == Mean(RowLine(before, g, y, c), x, r)
      ensures Sample(ColumnPass(mid, g, r), g, y, x, c) == Mean(ColumnLine(mid, g, x, c), y, r)
    {
      PassIsMean(before, g, r, y, x, c);
      PassIsMean(mid, g, r, y, x, c);
    }
    assert RowMeans(before, mid, g, r) && ColumnMeans(mid, ColumnPass(mid, g, r), g, r);
  }

  /** On those images valid premultiplied ARGB stays valid, and no sample leaves
      the range of its channel. */
  lemma SoftenedKeeps(s: seq<byte>, g: Geometry, radius: nat, passes: nat, c: nat, least: nat, most: nat)
    requires g.Fits(|s|) && (radius <= RADIUS_EXACT || g.width <= SIDE_EXACT || g.height <= SIDE_EXACT)
    ensures Premultiplied(s, g) ==> Premultiplied(Softened(s, g, radius, passes), g)
    ensures Within(s, c, g, least, most) ==> Within(Softened(s, g, radius, passes), c, g, least, most)
  {
    hide Premultiplied, Within, Blurred, Capped;
    CappedIsExactIff(radius, g.width, g.height);
    var r := Capped(radius, g.width, g.height);
    if Premultiplied(s, g) {
      BlurredStaysPremultiplied(s, g, r, passes);
    }
    if Within(s, c, g, least, most) {
      BlurredWithin(s, c, g, least, most, r, passes);
    }
  }

  ghost predicate AtMost(s: seq<byte>, c: nat, g: Geometry, most: byte) {
    g.Fits(|s|) && c < CHANNELS &&
    forall y, x :: 0 <= y < g.height && 0 <= x < g.width ==> Sample(s, g, y, x, c) <= most
  }

  lemma RowPassAtMost(s: seq<byte>, c: nat, g: Geometry, most: byte, r: nat)
    requires AtMost(s, c, g, most)
    ensures AtMost(RowPass(s, g, r), c, g, most)
  {
    hide Sample, RowLine, ColumnLine, RowPass, ColumnPass, Box;
    forall y, x | 0 <= y < g.height && 0 <= x < g.width
      ensures Sample(RowPass(s, g, r), g, y, x, c) <= most
    {
      PassAt(s, g, r, y, x, c);
      forall j | 0 <= j < g.width
        ensures RowLine(s, g, y, c)[j] <= most
      {
        RowLineAt(s, g, y, j, c);
      }
      BoxAtMost(RowLine(s, g, y, c), x, r, most);
    }
  }

  lemma ColumnPassAtMost(s: seq<byte>, c: nat, g: Geometry, most: byte, r: nat)
    requires AtMost(s, c, g, most)
    ensures AtMost(ColumnPass(s, g, r), c, g, most)
  {
    hide Sample, RowLine, ColumnLine, RowPass, ColumnPass, Box;
    forall y, x | 0 <= y < g.height && 0 <= x < g.width
      ensures Sample(ColumnPass(s, g, r), g, y, x, c) <= most
    {
      PassAt(s, g, r, y, x, c);
      forall j | 0 <= j < g.height
        ensures ColumnLine(s, g, x, c)[j] <= most
      {
        ColumnLineAt(s, g, j, x, c);
      }
      BoxAtMost(ColumnLine(s, g, x, c), y, r, most);
    }
  }

  /** One pass at a radius the sum cannot carry dims every white sample. */
  lemma WhiteRowsDim(s: seq<byte>, c: nat, g: Geometry, r: nat)
    requires Within(s, c, g, 255, 255) && r > RADIUS_EXACT
    ensures AtMost(RowPass(s, g, r), c, g, 254)
  {
    hide Sample, RowLine, RowPass, Box;
    forall y, x | 0 <= y < g.height && 0 <= x < g.width
      ensures Sample(RowPass(s, g, r), g, y, x, c) <= 254
    {
      PassAt(s, g, r, y, x, c);
      forall j | 0 <= j < g.width
        ensures RowLine(s, g, y, c)[j] == 255
      {
        RowLineAt(s, g, y, j, c);
      }
      WhiteLineIff(RowLine(s, g, y, c), x, r);
    }
  }

  lemma {:induction false} WhiteDims(s: seq<byte>, c: nat, g: Geometry, r: nat, passes: nat)
    requires g.Fits(|s|) && Within(s, c, g, 255, 255) && r > RADIUS_EXACT && passes > 0
    ensures AtMost(Blurred(s, g, r, passes), c, g, 254)
  {
    hide Within, AtMost, RowPass, ColumnPass;
    if passes == 1 {
      WhiteRowsDim(s, c, g, r);
      assert Blurred(s, g, r, 0) == s;
      ColumnPassAtMost(RowPass(s, g, r), c, g, 254, r);
    } else {
      WhiteDims(s, c, g, r, passes - 1);
      var before := Blurred(s, g, r, passes - 1);
      RowPassAtMost(before, c, g, 254, r);
      ColumnPassAtMost(RowPass(before, g, r), c, g, 254, r);
    }
  }

  /** What the routine does to white: on every image, a channel that is white
      everywhere stays so exactly if the radius or a side is small enough. */
  lemma WhiteStaysIff(s: seq<byte>, c: nat, g: Geometry, radius: nat, passes: nat)
    requires Within(s, c, g, 255, 255) && passes > 0
    ensures Within(Softened(s, g, radius, passes), c, g, 255, 255) <==>
            radius <= RADIUS_EXACT || g.width <= SIDE_EXACT || g.height <= SIDE_EXACT
  {
    hide Sample, Blurred, Capped;
    CappedIsExactIff(radius, g.width, g.height);
    var r := Capped(radius, g.width, g.height);
    if r <= RADIUS_EXACT {
      BlurredWithin(s, c, g, 255, 255, r, passes);
    } else {
      WhiteDims(s, c, g, r, passes);
      assert Sample(Blurred(s, g, r, passes), g, 0, 0, c) <= 254;
    }
  }
}
