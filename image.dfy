/**
 * A floating-point RGB pixel buffer: an image of `width` by `height` pixels
 * whose samples live in one flat array laid out as `PixelLayout` describes.
 * Samples are real numbers, nominally in [0, 1]; saving the image quantises
 * them to bytes.
 */
module ImageBuffer {
  import opened PixelLayout

  /** An 8-bit unsigned value, as stored in the PNG byte buffer. */
  newtype byte = b: int | 0 <= b < 256

  /** One pixel's colour: its red, green and blue samples. */
  datatype Color = Color(r: real, g: real, b: real)

  function Scale(k: real, c: Color): Color
  {
    Color(k * c.r, k * c.g, k * c.b)
  }

  function Add(c: Color, d: Color): Color
  {
    Color(c.r + d.r, c.g + d.g, c.b + d.b)
  }

  /** Limits `x` to the interval [lo, hi]. */
  function Clamp(x: real, lo: real, hi: real): (r: real)
    ensures lo <= hi ==> lo <= r <= hi
    ensures lo <= x <= hi ==> r == x
    ensures x < lo ==> r == lo
    ensures lo <= x && hi < x ==> r == hi
  {
    if x < lo then lo else if x > hi then hi else x
  }

  /** Conversion of a non-negative value below 256 to `unsigned char`, which truncates toward zero. */
  function Truncate(v: real): (b: byte)
    requires 0.0 <= v < 256.0
    ensures b as real <= v < b as real + 1.0
  {
    v.Floor as byte
  }

  /** The byte that saving stores for a sample: clamped to [0, 1], scaled by 255 and truncated. */
  function Quantize(sample: real): (b: byte)
    ensures b as real <= 255.0 * Clamp(sample, 0.0, 1.0) < b as real + 1.0
    ensures sample <= 0.0 ==> b == 0
    ensures sample >= 1.0 ==> b == 255
  {
    Truncate(255.0 * Clamp(sample, 0.0, 1.0))
  }

  /** The sample a byte of a decoded PNG stands for: the byte divided by 255. */
  function Dequantize(b: byte): real
  {
    b as real / 255.0
  }

  /** Re-encoding a decoded byte gives that byte back. */
  lemma QuantizeDequantize(b: byte)
    ensures 0.0 <= Dequantize(b) <= 1.0
    ensures Quantize(Dequantize(b)) == b
  {
    var s := Dequantize(b);
    assert 255.0 * s == b as real;
    assert Clamp(s, 0.0, 1.0) == s;
  }

  /** A sample in [0, 1] is at most 1/255 above the value its byte decodes to, and never below it. */
  lemma QuantizationError(sample: real)
    requires 0.0 <= sample <= 1.0
    ensures Dequantize(Quantize(sample)) <= sample < Dequantize(Quantize(sample)) + 1.0 / 255.0
  {
    var b := Quantize(sample);
    assert Clamp(sample, 0.0, 1.0) == sample;
    assert b as real <= 255.0 * sample < b as real + 1.0;
  }

  /** The four bilinear interpolation weights of the texels around a point. */
  datatype Weights = Weights(w00: real, w01: real, w10: real, w11: real)

  /** Weights for fractional offsets `uw` (along a row) and `vw` (down a column) from the base texel. */
  function BilinearWeights(uw: real, vw: real): (w: Weights)
    ensures w.w00 + w.w01 + w.w10 + w.w11 == 1.0
  {
    Weights((1.0 - uw) * (1.0 - vw), (1.0 - uw) * vw, uw * (1.0 - vw), uw * vw)
  }

  /** The weighted sum of the colours of four texels. */
  function Blend(w: Weights, c00: Color, c01: Color, c10: Color, c11: Color): Color
  {
    Add(Add(Scale(w.w00, c00), Scale(w.w01, c01)), Add(Scale(w.w10, c10), Scale(w.w11, c11)))
  }

  /** With no fractional offset the blend is the base texel's colour alone. */
  lemma BlendAtCorner(c00: Color, c01: Color, c10: Color, c11: Color)
    ensures Blend(BilinearWeights(0.0, 0.0), c00, c01, c10, c11) == c00
  {
    assert BilinearWeights(0.0, 0.0) == Weights(1.0, 0.0, 0.0, 0.0);
    assert Scale(1.0, c00) == c00;
    assert Scale(0.0, c01) == Scale(0.0, c10) == Scale(0.0, c11) == Color(0.0, 0.0, 0.0);
  }

  /** Halfway between texels in both directions the blend is the plain average of the four. */
  lemma BlendAtCentre(c00: Color, c01: Color, c10: Color, c11: Color)
    ensures Blend(BilinearWeights(0.5, 0.5), c00, c01, c10, c11) == Scale(0.25, Add(Add(c00, c01), Add(c10, c11)))
  {
    assert BilinearWeights(0.5, 0.5) == Weights(0.25, 0.25, 0.25, 0.25);
  }

  /** A texel index divided by the extent is a texture coordinate in [0, 1) that scales back to the index. */
  lemma CornerCoordinate(x: nat, n: nat)
    requires x < n
    ensures 0.0 <= x as real / n as real < 1.0
    ensures x as real / n as real * n as real == x as real
  {
    var u := x as real / n as real;
    assert u * n as real == x as real;
  }

  /** A product of two numbers in [0, 1] is in [0, 1]. */
  lemma UnitProduct(a: real, b: real)
    requires 0.0 <= a <= 1.0 && 0.0 <= b <= 1.0
    ensures 0.0 <= a * b <= 1.0
  {
    assert a * b <= a * 1.0;
    assert 0.0 * b <= a * b;
  }

  /** For offsets in [0, 1] every weight is in [0, 1], so the lookup is a convex combination. */
  lemma BilinearWeightsBounded(uw: real, vw: real)
    requires 0.0 <= uw <= 1.0 && 0.0 <= vw <= 1.0
    ensures var w := BilinearWeights(uw, vw);
      0.0 <= w.w00 <= 1.0 && 0.0 <= w.w01 <= 1.0 && 0.0 <= w.w10 <= 1.0 && 0.0 <= w.w11 <= 1.0
  {
    UnitProduct(1.0 - uw, 1.0 - vw);
    UnitProduct(1.0 - uw, vw);
    UnitProduct(uw, 1.0 - vw);
    UnitProduct(uw, vw);
  }

  /** Scaling a texture coordinate in [0, 1) by a positive extent lands inside the extent. */
  lemma ScaledCoordinateInRange(u: real, n: real, pos: real)
    requires 0.0 <= u < 1.0 && n > 0.0 && pos == u * n
    ensures 0.0 <= pos < n
  {
    assert u * n < 1.0 * n;
  }

  /**
   * Folds an unsigned coordinate back into [0, n). The source also has a
   * branch for negative coordinates; an unsigned coordinate never takes it.
   */
  function Wrap(x: nat, n: nat): (r: nat)
    requires n > 0
    ensures r < n
    ensures x < n ==> r == x
    ensures r == x % n
  {
    if x >= n then x % n else x
  }

  /** Adding the period does not change where a coordinate wraps to. */
  lemma {:induction false} WrapPeriodic(x: nat, n: nat)
    requires n > 0
    ensures Wrap(x + n, n) == Wrap(x, n)
  {
    DivModOf(x / n, x % n, n);
    DivModOf(x / n + 1, x % n, n);
    assert x + n == (x / n + 1) * n + x % n;
  }

  /**
   * memcpy of `src` into `dst`, element by element. When both are the same
   * array every element is copied onto itself and the array keeps its
   * contents.
   */
  method CopyInto(src: array<real>, dst: array<real>)
    requires src.Length == dst.Length
    modifies dst
    ensures dst[..] == old(src[..])
  {
    var k := 0;
    while k < dst.Length
      invariant 0 <= k <= dst.Length
      invariant forall j :: 0 <= j < k ==> dst[j] == old(src[j])
      invariant forall j :: k <= j < src.Length ==> src[j] == old(src[j])
    {
      dst[k] := src[k];
      k := k + 1;
    }
  }

  /** memset of the buffer to zero. */
  method ZeroFill(a: array<real>)
    modifies a
    ensures a[..] == seq(a.Length, _ => 0.0)
  {
    var k := 0;
    while k < a.Length
      invariant 0 <= k <= a.Length
      invariant forall j :: 0 <= j < k ==> a[j] == 0.0
    {
      a[k] := 0.0;
      k := k + 1;
    }
  }

  class Image {
    var width: nat
    var height: nat
    /** The sample storage; `null` when the image owns none. */
    var data: array?<real>

    /**
     * The object invariant: the dimensions fit the source's unsigned
     * arithmetic, an image without storage is 0 by 0, and storage holds one
     * sample per colour component of every pixel.
     */
    ghost predicate Valid()
      reads this
    {
      FitsUint(width, height) &&
      (data == null ==> width == 0 && height == 0) &&
      (data != null ==> data.Length == SampleCount(width, height))
    }

    /** The samples in storage order; none when there is no storage. */
    ghost function Samples(): (s: seq<real>)
      reads this, data
      requires Valid()
      ensures |s| == SampleCount(width, height)
    {
      if data == null then [] else data[..]
    }

    /** An image with no pixels and no storage. */
    constructor ()
      ensures Valid() && IsEmpty()
      ensures width == 0 && height == 0 && Samples() == []
    {
      width, height, data := 0, 0, null;
    }

    /** A `w` by `h` image whose samples are all 0, in fresh storage. */
    constructor Sized(w: nat, h: nat)
      requires FitsUint(w, h)
      ensures Valid() && !IsEmpty() && fresh(data)
      ensures width == w && height == h
      ensures Samples() == seq(SampleCount(w, h), _ => 0.0)
    {
      width, height := w, h;
      var storage := new real[SampleCount(w, h)];
      ZeroFill(storage);
      data := storage;
    }

    /**
     * A deep copy of `other`: the same dimensions and samples in storage of
     * its own, or no storage if `other` has none.
     */
    constructor Copy(other: Image)
      requires other.Valid()
      ensures Valid() && (data != null ==> fresh(data))
      ensures width == other.width && height == other.height
      ensures IsEmpty() == other.IsEmpty()
      ensures Samples() == other.Samples()
    {
      width, height := other.width, other.height;
      if other.data == null {
        data := null;
      } else {
        var storage := new real[other.data.Length];
        CopyInto(other.data, storage);
        data := storage;
      }
    }

    function Width(): nat
      reads this
    {
      width
    }

    function Height(): nat
      reads this
    {
      height
    }

    /** True when the image owns no storage; such an image has no pixels. */
    predicate IsEmpty()
      reads this
      ensures IsEmpty() && Valid() ==> width == 0 && height == 0 && Samples() == []
    {
      data == null
    }

    /**
     * Replaces this image by a deep copy of `other`. Storage is copied before
     * the old storage is let go, so assigning an image to itself keeps it as
     * it was.
     */
    method Assign(other: Image)
      requires Valid() && other.Valid()
      modifies this
      ensures Valid() && (data != null ==> fresh(data))
      ensures width == old(other.width) && height == old(other.height)
      ensures IsEmpty() == old(other.IsEmpty())
      ensures Samples() == old(other.Samples())
    {
      var w, h, source := other.width, other.height, other.data;
      var storage: array?<real> := null;
      if source != null {
        var copy := new real[source.Length];
        CopyInto(source, copy);
        storage := copy;
      }
      width, height, data := w, h, storage;
    }

    /**
     * `operator=` step by step as the source writes it: the old storage is
     * released, the dimensions are copied, a new block is allocated and
     * installed in `data`, and only then is `other.data` read as the source
     * of the copy. When `other` is this image, `other.data` is by then the
     * new block, so the copy moves that block onto itself and the samples
     * become whatever the new block held. `freshContents` stands for those
     * indeterminate contents of `new double[n]`.
     */
    method AssignAsWritten(other: Image, freshContents: seq<real>)
      requires Valid() && other.Valid()
      requires |freshContents| == SampleCount(other.width, other.height)
      modifies this
      ensures Valid()
      ensures width == old(other.width) && height == old(other.height)
      ensures IsEmpty() == old(other.IsEmpty())
      ensures this != other ==> Samples() == old(other.Samples())
      ensures this == other && old(other.data) != null ==> Samples() == freshContents
    {
      // delete [] m_data: releasing storage has no counterpart here.
      width := other.width;
      height := other.height;
      var block: array?<real> := null;
      if other.data != null {
        var newBlock := new real[SampleCount(width, height)];
        var k := 0;
        while k < newBlock.Length
          invariant 0 <= k <= newBlock.Length
          invariant forall j :: 0 <= j < k ==> newBlock[j] == freshContents[j]
          modifies newBlock
        {
          newBlock[k] := freshContents[k];
          k := k + 1;
        }
        block := newBlock;
      }
      data := block;
      if data != null {
        CopyInto(other.data, data);
      }
    }

    /** Sample `i` of pixel `(x, y)`, read straight from storage. */
    function Sample(x: nat, y: nat, i: nat): (r: real)
      reads this, data
      requires Valid() && InBounds(width, height, x, y, i)
      ensures Index(width, x, y, i) < |Samples()| && r == Samples()[Index(width, x, y, i)]
    {
      IndexInRange(width, height, x, y, i);
      data[Index(width, x, y, i)]
    }

    /** The colour of pixel `(x, y)`. */
    function Pixel(x: nat, y: nat): Color
      reads this, data
      requires Valid() && x < width && y < height
    {
      Color(Sample(x, y, 0), Sample(x, y, 1), Sample(x, y, 2))
    }

    /**
     * Writes sample `i` of pixel `(x, y)`: that one sample becomes `v`, every
     * other sample and the dimensions stay as they were.
     */
    method Set(x: nat, y: nat, i: nat, v: real)
      requires Valid() && InBounds(width, height, x, y, i)
      modifies data
      ensures Valid() && unchanged(this)
      ensures Index(width, x, y, i) < |Samples()| && Samples() == old(Samples())[Index(width, x, y, i) := v]
      ensures Sample(x, y, i) == v
      ensures forall x', y', i' |
          InBounds(width, height, x', y', i') && Position(x', y', i') != Position(x, y, i) ::
        Sample(x', y', i') == old(Sample(x', y', i'))
    {
      IndexInRange(width, height, x, y, i);
      var k := Index(width, x, y, i);
      data[k] := v;
      forall x', y', i' | InBounds(width, height, x', y', i') && Position(x', y', i') != Position(x, y, i)
        ensures Sample(x', y', i') == old(Sample(x', y', i'))
      {
        IndexInjective(width, height, x, y, i, x', y', i');
        IndexInRange(width, height, x', y', i');
        var k' := Index(width, x', y', i');
        assert k' != k;
        assert Sample(x', y', i') == data[k'];
      }
    }

    /**
     * The colour at unsigned coordinates `(x, y)`, each folded back into the
     * image when it lies past the edge, so that the image tiles the plane.
     */
    function ColorAt(x: nat, y: nat): (c: Color)
      reads this, data
      requires Valid() && width > 0 && height > 0 && x < UintLimit && y < UintLimit
      ensures c == Pixel(x % width, y % height)
      ensures x < width && y < height ==> c == Pixel(x, y)
    {
      var x' := Wrap(x, width);
      var y' := Wrap(y, height);
      Pixel(x', y')
    }

    /** Shifting either coordinate by the image's extent lands on the same colour. */
    lemma {:induction false} ColorAtPeriodic(x: nat, y: nat)
      requires Valid() && width > 0 && height > 0
      requires x + width < UintLimit && y + height < UintLimit
      ensures ColorAt(x + width, y) == ColorAt(x, y)
      ensures ColorAt(x, y + height) == ColorAt(x, y)
    {
      WrapPeriodic(x, width);
      WrapPeriodic(y, height);
    }

    /**
     * Bilinear lookup at texture coordinates `(u, v)` in [0, 1): the four
     * texels around `(u * width, v * height)`, weighted by how close the
     * point lies to each, with wraparound past the right and bottom edges.
     */
    function GetColor(u: real, v: real): Color
      reads this, data
      requires Valid() && width > 0 && height > 0
      requires 0.0 <= u < 1.0 && 0.0 <= v < 1.0
    {
      var uPos := u * width as real;
      var vPos := v * height as real;
      ScaledCoordinateInRange(u, width as real, uPos);
      ScaledCoordinateInRange(v, height as real, vPos);
      BilinearAt(uPos, vPos)
    }

    /** Bilinear lookup at a point `(uPos, vPos)` in pixel units. */
    function BilinearAt(uPos: real, vPos: real): Color
      reads this, data
      requires Valid() && 0.0 <= uPos < width as real && 0.0 <= vPos < height as real
    {
      var ui: nat := uPos.Floor;
      var vi: nat := vPos.Floor;
      Blend(BilinearWeights(uPos - ui as real, vPos - vi as real),
            ColorAt(ui, vi), ColorAt(ui, vi + 1), ColorAt(ui + 1, vi), ColorAt(ui + 1, vi + 1))
    }

    /** At the texture coordinates of a texel's corner the lookup gives that texel's colour. */
    lemma TexelCorner(x: nat, y: nat)
      requires Valid() && x < width && y < height
      ensures 0.0 <= x as real / width as real < 1.0 && 0.0 <= y as real / height as real < 1.0
      ensures GetColor(x as real / width as real, y as real / height as real) == Pixel(x, y)
    {
      CornerCoordinate(x, width);
      CornerCoordinate(y, height);
      GetColorOnTexel(x as real / width as real, y as real / height as real, x, y);
    }

    /** Texture coordinates that scale exactly onto pixel `(x, y)` give that pixel's colour. */
    lemma GetColorOnTexel(u: real, v: real, x: nat, y: nat)
      requires Valid() && x < width && y < height
      requires 0.0 <= u < 1.0 && 0.0 <= v < 1.0
      requires u * width as real == x as real && v * height as real == y as real
      ensures GetColor(u, v) == Pixel(x, y)
    {
      assert GetColor(u, v) == BilinearAt(x as real, y as real);
      BilinearAtTexel(x, y);
    }

    /**
     * At the centre of the square spanned by pixels `(x, y)` and
     * `(x + 1, y + 1)` the lookup averages those four pixels, wrapping past
     * the right and bottom edges.
     */
    lemma GetColorBetweenTexels(u: real, v: real, x: nat, y: nat)
      requires Valid() && x < width && y < height
      requires 0.0 <= u < 1.0 && 0.0 <= v < 1.0
      requires u * width as real == x as real + 0.5 && v * height as real == y as real + 0.5
      ensures GetColor(u, v) ==
        Scale(0.25, Add(Add(ColorAt(x, y), ColorAt(x, y + 1)), Add(ColorAt(x + 1, y), ColorAt(x + 1, y + 1))))
    {
      assert GetColor(u, v) == BilinearAt(x as real + 0.5, y as real + 0.5);
      assert (x as real + 0.5).Floor == x && (y as real + 0.5).Floor == y;
      BlendAtCentre(ColorAt(x, y), ColorAt(x, y + 1), ColorAt(x + 1, y), ColorAt(x + 1, y + 1));
    }

    /** At a whole-pixel point the blend puts all weight on that pixel. */
    lemma BilinearAtTexel(x: nat, y: nat)
      requires Valid() && x < width && y < height
      ensures BilinearAt(x as real, y as real) == Pixel(x, y)
    {
      assert (x as real).Floor == x && (y as real).Floor == y;
      BlendAtCorner(ColorAt(x, y), ColorAt(x, y + 1), ColorAt(x + 1, y), ColorAt(x + 1, y + 1));
    }

    /**
     * The quantisation pass of savePng: fills the byte buffer handed to the
     * PNG encoder, row by row, pixel by pixel, component by component.
     * `encoderStatus` stands for the error code the external encoder returns;
     * the result is true whatever that code is.
     */
    method SavePng(encoderStatus: nat) returns (ok: bool, image: seq<byte>)
      requires Valid()
      ensures |image| == SampleCount(width, height)
      ensures forall k :: 0 <= k < |image| ==> image[k] == Quantize(Samples()[k])
      ensures ok
    {
      var buffer := new byte[SampleCount(width, height)];
      ghost var samples := Samples();
      var y := 0;
      while y < height
        invariant y <= height
        invariant Index(width, 0, y, 0) <= buffer.Length == |samples|
        invariant forall k :: 0 <= k < Index(width, 0, y, 0) ==> buffer[k] == Quantize(samples[k])
      {
        var x := 0;
        while x < width
          invariant x <= width
          invariant Index(width, x, y, 0) <= buffer.Length
          invariant forall k :: 0 <= k < Index(width, x, y, 0) ==> buffer[k] == Quantize(samples[k])
        {
          var i := 0;
          while i < ColorComponents
            invariant i <= ColorComponents
            invariant Index(width, x, y, i) <= buffer.Length
            invariant forall k :: 0 <= k < Index(width, x, y, i) ==> buffer[k] == Quantize(samples[k])
          {
            IndexInRange(width, height, x, y, i);
            var color := data[Index(width, x, y, i)];
            color := Clamp(color, 0.0, 1.0);
            buffer[Index(width, x, y, i)] := Truncate(255.0 * color);
            i := i + 1;
          }
          x := x + 1;
        }
        assert Index(width, width, y, 0) == Index(width, 0, y + 1, 0);
        y := y + 1;
      }
      assert Index(width, 0, height, 0) == SampleCount(width, height);
      image := buffer[..];
      ok := true;
    }
  }

  /** Assigning an image to itself leaves its dimensions and samples as they were. */
  method AssignToItself(img: Image)
    requires img.Valid()
    modifies img
    ensures img.Valid()
    ensures img.width == old(img.width) && img.height == old(img.height)
    ensures img.Samples() == old(img.Samples())
  {
    img.Assign(img);
  }

  /**
   * A white one-pixel image assigned to itself with `AssignAsWritten` can
   * come out with other samples: here the new block happens to hold zeros.
   */
  method SelfAssignmentAsWrittenLosesSamples(img: Image)
    requires img.Valid() && img.width == 1 && img.height == 1
    requires img.Samples() == [1.0, 1.0, 1.0]
    modifies img
    ensures img.Valid() && img.width == 1 && img.height == 1
    ensures img.Samples() == [0.0, 0.0, 0.0] != old(img.Samples())
  {
    img.AssignAsWritten(img, [0.0, 0.0, 0.0]);
  }

  /** Shows that a copy owns its storage: writing to it leaves the original alone. */
  method CopyThenSet(original: Image, x: nat, y: nat, i: nat, v: real) returns (copy: Image)
    requires original.Valid() && InBounds(original.width, original.height, x, y, i)
    ensures fresh(copy) && copy.Valid()
    ensures copy.width == original.width && copy.height == original.height
    ensures copy.Sample(x, y, i) == v
    ensures original.Samples() == old(original.Samples())
  {
    copy := new Image.Copy(original);
    copy.Set(x, y, i, v);
  }
}
