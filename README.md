# Image: a floating-point RGB pixel buffer

This project models the `Image` class of a small renderer: an image of
`width` by `height` pixels whose colour samples are kept in one flat array of
`width * height * 3` floating-point values, row after row, with the red, green
and blue samples of a pixel side by side. The sample of colour component `i`
of pixel `(x, y)` sits at offset `3 * (width * y + x) + i`.

The model has two modules:

- `PixelLayout` (`layout.dfy`): the channel count, the sample count, the
  index formula, its inverse `PositionOf`, and the arithmetic facts that make
  the layout sound: every in-range position lands inside the buffer, distinct
  positions land on distinct offsets, and every offset belongs to exactly one
  position.
- `ImageBuffer` (`image.dfy`): the class `Image` with its fields `width`,
  `height` and `data` (an `array?<real>`; `null` plays the part of the null
  `m_data` pointer), its constructors, deep-copy assignment, raw sample read
  (`Sample`) and write (`Set`), the wrapping colour lookup `ColorAt`, the
  bilinear texture lookup `GetColor`, `IsEmpty`, `Width`, `Height`, and the
  quantisation pass of `savePng`. The static `clamp` helper and the byte
  conversion are module-level functions.

`Valid()` is the object invariant: the dimensions keep the source's 32-bit
unsigned size arithmetic exact, an image without storage is 0 by 0, and
storage holds exactly `width * height * 3` samples. `Samples()` is the
abstract value: the samples in storage order. The constructors, `Assign` and
`Set` state the new value of `Samples()`; `Sample` and `Pixel` read it through
the index formula.

Modelling choices:

- `double` samples are `real`. The conversion `(unsigned char)(255 * color)`
  is applied to a value in [0, 255], where truncation toward zero is `.Floor`
  (`Truncate`).
- The mutable `operator()(x, y, i)` returns a reference that callers write
  through; it is modelled as the method `Set`, which performs that one write.
  The const `operator()(x, y, i)` is the function `Sample`.
- `memset` and `memcpy` are the loops `ZeroFill` and `CopyInto`.
- `operator=` appears twice: `Image.AssignAsWritten` follows the source
  statement by statement, and `Image.Assign` is the corrected assignment the
  rest of the model uses (see "## Findings").
- The PNG encoder is external: `SavePng` takes the status code it would
  report as a parameter and builds the byte buffer it would be handed.
- Coordinates are `nat` below 2^32, as for `uint`. The wraparound accessor's
  branches for `x < 0` and `y < 0` can never be taken by an unsigned
  coordinate, so `Wrap` has only the modulo branch and the identity branch.
- `Image(0, 0)` allocates a zero-length array; in C++ `new double[0]` is not
  a null pointer, so that image is not empty. Only the default constructor,
  or copying an image without storage, gives an empty image.
- `savePng` returns true in every case, including when the encoder fails,
  and so does the model.

## Model

| member | source | states |
|---|---|---|
| `PixelLayout.Index` | Image.cpp:84 | offset `3 * (width * y + x) + i` of sample `i` of pixel `(x, y)`; the body is its definition, and the four lemmas below state its properties |
| `PixelLayout.IndexInRange` | Image.cpp:82-91 | for `x < width`, `y < height`, `i < 3` the offset `3 * (width * y + x) + i` is below `width * height * 3` |
| `PixelLayout.IndexInjective` | Image.cpp:82-91 | two in-range positions have the same offset if and only if they are the same position |
| `PixelLayout.PositionOfIndex` | Image.cpp:84 | decoding the offset of an in-range position (divide by 3, then by `width`) gives back that column, row and component |
| `PixelLayout.IndexOfPosition` | Image.cpp:107-112 | every offset below `width * height * 3` decodes to an in-range position whose offset is that offset, so the layout covers the whole buffer |
| `ImageBuffer.Clamp` | Image.cpp:94-97 | the result lies in `[lo, hi]` when `lo <= hi`, equals `x` when `x` is already in range, is `lo` below the range, and is `hi` above it (when `x` is not below `lo`) |
| `ImageBuffer.Truncate` | Image.cpp:112 | the byte is the largest integer not above the value: `b <= v < b + 1` |
| `ImageBuffer.Quantize` | Image.cpp:110-112 | the byte stored for a sample is `floor(255 * clamp(sample, 0, 1))`, 0 for samples at or below 0 and 255 for samples at or above 1 |
| `ImageBuffer.QuantizeDequantize` | Image.cpp:110-112 | a byte read back as `b / 255` lies in [0, 1] and quantises to the same byte |
| `ImageBuffer.QuantizationError` | Image.cpp:110-112 | for a sample in [0, 1], the stored byte over 255 is at most the sample and less than 1/255 below it |
| `ImageBuffer.BilinearWeights` | Image.cpp:182-185 | the four interpolation weights sum to 1 |
| `ImageBuffer.BilinearWeightsBounded` | Image.cpp:182-185 | for fractional offsets in [0, 1] every weight lies in [0, 1] |
| `ImageBuffer.BlendAtCorner` | Image.cpp:182-185 | with zero offsets the blend is exactly the base texel's colour |
| `ImageBuffer.BlendAtCentre` | Image.cpp:182-185 | with offsets of one half the blend is the plain average of the four texels |
| `ImageBuffer.Wrap` | Image.cpp:149-161 | the coordinate used is below the extent, equals the input when the input is in range, and is the input modulo the extent |
| `ImageBuffer.WrapPeriodic` | Image.cpp:149-150 | a coordinate and that coordinate plus the extent wrap to the same place |
| `ImageBuffer.ZeroFill` | Image.cpp:29 | every element of the array becomes 0 |
| `ImageBuffer.CopyInto` | Image.cpp:39-40 | the destination ends up with the elements the source held before the copy, in order; this holds also when both are the same array |
| `ImageBuffer.Image.Samples` | Image.cpp:27-28 | a valid image holds exactly `width * height * 3` samples |
| `ImageBuffer.Image.constructor` | Image.cpp:12-17 | width 0, height 0, no storage, and the image is empty |
| `ImageBuffer.Image.Sized` | Image.cpp:20-30 | the given dimensions, fresh storage of `width * height * 3` samples, every sample 0, not empty |
| `ImageBuffer.Image.Copy` | Image.cpp:33-42 | same dimensions and samples as the source, in storage of its own; no storage when the source has none |
| `ImageBuffer.Image.Assign` | Image.cpp:51-67 | dimensions and samples become the source's (as they were before the call), in fresh storage, or no storage when the source has none; also when the source is the image itself |
| `ImageBuffer.AssignToItself` | Image.cpp:51-67 | assigning an image to itself leaves its dimensions and samples unchanged |
| `ImageBuffer.CopyThenSet` | Image.cpp:33-42 | writing a sample of a copy changes the copy and leaves every sample of the original as it was |
| `ImageBuffer.Image.Width` | Image.cpp:70-73 | returns the stored width; the body is its definition |
| `ImageBuffer.Image.Height` | Image.cpp:76-79 | returns the stored height; the body is its definition |
| `ImageBuffer.Image.IsEmpty` | Image.cpp:165-167 | true exactly when there is no storage (the body); a valid empty image is 0 by 0 with no samples |
| `ImageBuffer.Image.Sample` | Image.cpp:82-85 | the read stays inside the storage and returns the sample at offset `3 * (width * y + x) + i` of the image's samples |
| `ImageBuffer.Image.Set` | Image.cpp:88-91 | the sample at `3 * (width * y + x) + i` becomes `v`; every other in-range sample, the dimensions and the storage reference stay the same |
| `ImageBuffer.Image.ColorAt` | Image.cpp:147-163 | the colour is that of pixel `(x mod width, y mod height)`, and of `(x, y)` itself when it is in range |
| `ImageBuffer.Image.ColorAtPeriodic` | Image.cpp:147-163 | shifting `x` by `width` or `y` by `height` gives the same colour |
| `ImageBuffer.Image.GetColor` | Image.cpp:170-186 | scales `(u, v)` by the image's extent and looks up the blend there; the body is its definition, and the lemmas below state its properties |
| `ImageBuffer.Image.BilinearAt` | Image.cpp:174-185 | floors the pixel-space point, takes the fractional offsets as weights and blends the four wrapped neighbours; the body is its definition |
| `ImageBuffer.Image.BilinearAtTexel` | Image.cpp:174-185 | at a whole-pixel point the lookup returns that pixel's colour |
| `ImageBuffer.Image.GetColorOnTexel` | Image.cpp:170-186 | texture coordinates that scale exactly onto pixel `(x, y)` return that pixel's colour |
| `ImageBuffer.Image.TexelCorner` | Image.cpp:170-186 | `GetColor(x / width, y / height)` is the colour of pixel `(x, y)` |
| `ImageBuffer.Image.GetColorBetweenTexels` | Image.cpp:170-186 | halfway between pixels `(x, y)` and `(x + 1, y + 1)` the lookup is the average of the four pixels around, wrapping past the edges |
| `ImageBuffer.Image.SavePng` | Image.cpp:100-126 | the byte buffer has `width * height * 3` entries, entry `k` is the quantised sample `k`, and the result is true whatever the encoder reports |
| `ImageBuffer.Image.AssignAsWritten` | Image.cpp:51-67 | `operator=` as written: the dimensions become the source's; assigning another image copies its samples; assigning an image with storage to itself leaves the indeterminate contents of the newly allocated block |
| `ImageBuffer.SelfAssignmentAsWrittenLosesSamples` | Image.cpp:51-67 | a white one-pixel image assigned to itself with the code as written can come out with different samples |

## Left out

- `lodepng::encode` and `lodepng::decode`, file names and the `std::cerr` messages: external codec and I/O. The encoder's status is a parameter of `SavePng`.
- `loadPng`: it relies on `setWidth`, `setHeight` and `setData`, which are declared in `Image.hpp`; `Image.hpp` is not part of this model. `Dequantize` is the byte-to-sample conversion `b / 255`.
- `data()` (both variants): it hands out the raw pointer; callers that write through it are outside the model. The vector type the colour accessors return is the datatype `Color`.
- The destructor: memory release has no counterpart in Dafny.
- IEEE `double` rounding: samples, weights and texture coordinates are real numbers, so the model does not capture rounding in `255 * color`, `u * width` or the bilinear sum. A NaN sample passes `clamp` unchanged, since both of its comparisons are false (Image.cpp:96), and the `unsigned char` cast of Image.cpp:112 is then undefined behaviour; real numbers have no NaN, so the model cannot express this case.
- `ImageBuffer.Image.Sized`: requires that `width * height * 3` fits in 32 bits; the source would compute a wrapped-around size and allocate too little.
- `ImageBuffer.Image.ColorAt`: requires `width > 0` and `height > 0`; with a zero extent the source takes a remainder by zero.
- `ImageBuffer.Image.GetColor`: defined for `u` and `v` in [0, 1), which contains the open range (0, 1) documented at Image.cpp:169. Below 0 the source converts a negative `int` to `uint`, and at or above 1 it looks up wrapped texels (Image.cpp:149-150); the model covers neither.
- `ImageBuffer.Image.AssignAsWritten`: models the indeterminate contents of the newly allocated block as a parameter, and `memcpy` of that block onto itself as a copy that keeps it; in C++ both the read of uninitialised memory and the overlapping `memcpy` are undefined behaviour, which can do worse.

## Findings

| source | as written | input that shows it | evidently intended | confidence | as-written member | corrected member |
|---|---|---|---|---|---|---|
| Image.cpp:51-64 | `operator=` runs `delete [] m_data`, then sets `m_data` to a new, uninitialised block before it reads `other.m_data`; when `other` is the image itself, that read returns the new block, so `memcpy` copies the new block onto itself and the samples become its indeterminate contents | `img = img;` for any image with storage, for example a 1 by 1 white image | assigning an image to itself leaves it unchanged | high; not executed | `ImageBuffer.Image.AssignAsWritten` | `ImageBuffer.Image.Assign` |
