/**
 * Memory layout of an image's samples: one flat buffer, rows one after the
 * other (row-major), and within a pixel its red, green and blue components
 * side by side (channel-interleaved).
 */
module PixelLayout {

  /** Number of colour components stored per pixel: red, green, blue. */
  const ColorComponents: nat := 3

  /** One more than the largest value of a 32-bit `uint`. */
  const UintLimit: nat := 0x1_0000_0000

  /** Number of samples an image of the given dimensions stores. */
  function SampleCount(width: nat, height: nat): nat
  {
    width * height * ColorComponents
  }

  /**
   * Dimensions for which the unsigned 32-bit arithmetic on sizes and indices
   * never wraps around: every product the image computes stays exact.
   */
  predicate FitsUint(width: nat, height: nat)
  {
    width < UintLimit && height < UintLimit && SampleCount(width, height) < UintLimit
  }

  /** Sample `i` of pixel `(x, y)` is stored at this offset. */
  function Index(width: nat, x: nat, y: nat, i: nat): nat
  {
    ColorComponents * (width * y + x) + i
  }

  /** `(x, y, i)` names a sample of a `width` by `height` image. */
  predicate InBounds(width: nat, height: nat, x: nat, y: nat, i: nat)
  {
    x < width && y < height && i < ColorComponents
  }

  /** Coordinates of one sample: column, row and colour component. */
  datatype Position = Position(x: nat, y: nat, i: nat)

  /** The sample position stored at offset `k` of a buffer whose rows are `width` pixels wide. */
  function PositionOf(width: nat, k: nat): Position
    requires width > 0
  {
    Position((k / ColorComponents) % width, (k / ColorComponents) / width, k % ColorComponents)
  }

  /** Multiplication by a natural number is monotonic. */
  lemma {:induction false} MulMonotone(a: nat, b: nat, c: nat)
    requires a <= b
    ensures a * c <= b * c
  {
    if c > 0 {
      MulMonotone(a, b, c - 1);
      assert a * c == a * (c - 1) + a;
      assert b * c == b * (c - 1) + b;
    }
  }

  /** A strict inequality between multiples of the same natural number holds between the factors. */
  lemma {:induction false} MulCancel(a: nat, b: nat, c: nat)
    requires a * c < b * c
    ensures a < b
  {
    if b <= a {
      MulMonotone(b, a, c);
    }
  }

  /** Euclidean division of `q * d + r` by `d` gives back quotient `q` and remainder `r`. */
  lemma {:induction false} DivModOf(q: nat, r: nat, d: nat)
    requires r < d
    ensures (q * d + r) / d == q
    ensures (q * d + r) % d == r
  {
    var k := q * d + r;
    var q', r' := k / d, k % d;
    assert k == q' * d + r' && 0 <= r' < d;
    assert q' * d < (q + 1) * d;
    MulCancel(q', q + 1, d);
    assert q * d < (q' + 1) * d;
    MulCancel(q, q' + 1, d);
  }

  /** Every valid sample position is stored inside the buffer. */
  lemma {:induction false} IndexInRange(width: nat, height: nat, x: nat, y: nat, i: nat)
    requires InBounds(width, height, x, y, i)
    ensures Index(width, x, y, i) < SampleCount(width, height)
  {
    MulMonotone(y + 1, height, width);
    assert (y + 1) * width == width * y + width;
    assert width * y + x + 1 <= width * height;
    assert ColorComponents * (width * y + x + 1) <= ColorComponents * (width * height);
  }

  /** Decoding an index recovers the position it was computed from. */
  lemma {:induction false} PositionOfIndex(width: nat, height: nat, x: nat, y: nat, i: nat)
    requires InBounds(width, height, x, y, i)
    ensures PositionOf(width, Index(width, x, y, i)) == Position(x, y, i)
  {
    var pixel := width * y + x;
    DivModOf(pixel, i, ColorComponents);
    assert Index(width, x, y, i) == pixel * ColorComponents + i;
    DivModOf(y, x, width);
    assert pixel == y * width + x;
  }

  /** Every offset of the buffer decodes to a valid position, which maps back to that offset. */
  lemma {:induction false} IndexOfPosition(width: nat, height: nat, k: nat)
    requires k < SampleCount(width, height)
    ensures width > 0
    ensures InBounds(width, height, PositionOf(width, k).x, PositionOf(width, k).y, PositionOf(width, k).i)
    ensures Index(width, PositionOf(width, k).x, PositionOf(width, k).y, PositionOf(width, k).i) == k
  {
    assert width > 0;
    var pixel := k / ColorComponents;
    assert k == pixel * ColorComponents + k % ColorComponents;
    MulCancel(pixel, width * height, ColorComponents);
    var p := PositionOf(width, k);
    assert pixel == p.y * width + p.x;
    MulCancel(p.y, height, width);
  }

  /** Distinct sample positions are stored at distinct offsets. */
  lemma {:induction false} IndexInjective(width: nat, height: nat, x: nat, y: nat, i: nat, x': nat, y': nat, i': nat)
    requires InBounds(width, height, x, y, i) && InBounds(width, height, x', y', i')
    ensures Index(width, x, y, i) == Index(width, x', y', i') <==> Position(x, y, i) == Position(x', y', i')
  {
    PositionOfIndex(width, height, x, y, i);
    PositionOfIndex(width, height, x', y', i');
  }
}
