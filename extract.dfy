/**
 * The slicing engine of extract.py: the power-of-two size rule, the
 * conversion of a normalised rectangle to a pixel crop box, the choice of
 * output encoding, and `slice_image` itself.
 *
 * Images are reduced to their size and colour mode. Decoding, cropping,
 * resampling and encoding are the imaging library's and are modelled only
 * by what they do to size and mode; the files a slice reads and writes live
 * in a `Disk`.
 */
module Extract {
  import opened Wrappers
  import opened Paths
  import opened AtlasTable

  /** `n` is 2 to some power. */
  predicate IsPowerOfTwo(n: int)
    decreases if n < 0 then 0 else n
  {
    n == 1 || (n >= 2 && n % 2 == 0 && IsPowerOfTwo(n / 2))
  }

  /** `p` is the smallest power of two that is at least `v`. */
  predicate IsLeastPowerOfTwoAtLeast(p: int, v: int) {
    IsPowerOfTwo(p) && v <= p && (p == 1 || p / 2 < v)
  }

  /** 2 to the power ceil(log2 v), computed on integers. */
  function CeilPowerOfTwo(v: int): (p: nat)
    ensures IsPowerOfTwo(p)
    ensures v <= p
    ensures v >= 2 ==> p <= 2 * v - 2
    decreases if v < 0 then 0 else v
  {
    if v <= 1 then 1 else 2 * CeilPowerOfTwo((v + 1) / 2)
  }

  /** Between two different powers of two there is at least a factor of two. */
  lemma {:induction false} PowerOfTwoGap(p: int, q: int)
    requires IsPowerOfTwo(p) && IsPowerOfTwo(q)
    requires p < q
    ensures 2 * p <= q
    decreases q
  {
    if p != 1 {
      PowerOfTwoGap(p / 2, q / 2);
    }
  }

  /** No power of two at least `v` lies below `CeilPowerOfTwo(v)`. */
  lemma CeilPowerOfTwoIsLeast(v: int, q: int)
    requires 1 <= v <= q
    requires IsPowerOfTwo(q)
    ensures CeilPowerOfTwo(v) <= q
  {
    var p := CeilPowerOfTwo(v);
    if q < p {
      PowerOfTwoGap(q, p);
    }
  }

  /** The exceptions the slicing steps raise. */
  datatype ImageError =
    | MathDomainError    // math.log2 of a non-positive size
    | RightBeforeLeft    // Image.crop with right < left
    | LowerBeforeUpper   // Image.crop with lower < upper
    | CannotOpen         // Image.open on a path that is not a decodable image
    | BadCoordinates     // a rectangle field that is nil or a string
    | EmptyImage         // Image.save of an image with no pixels ("tile cannot extend outside image")

  /** `nearest_power_of_2(value)`: `2 ** ceil(log2(value))`. */
  function NearestPowerOf2(value: int): (r: Result<nat, ImageError>)
    ensures r.Success? <==> value >= 1
    ensures r.Success? ==> IsLeastPowerOfTwoAtLeast(r.value, value)
    ensures r.Failure? ==> r.error == MathDomainError
  {
    if value <= 0 then Failure(MathDomainError) else Success(CeilPowerOfTwo(value))
  }

  /** The result is the least power of two not below `value`: no power of two in between. */
  lemma NearestPowerOf2IsLeast(value: int, q: int)
    requires 1 <= value <= q
    requires IsPowerOfTwo(q)
    ensures NearestPowerOf2(value).Success? && NearestPowerOf2(value).value <= q
  {
    CeilPowerOfTwoIsLeast(value, q);
  }

  /** A power of two is its own nearest power of two. */
  lemma NearestPowerOf2OfPower(p: int)
    requires IsPowerOfTwo(p)
    ensures NearestPowerOf2(p) == Success(p)
  {
    assert p >= 1 by {
      assert p == 1 || p >= 2;
    }
    CeilPowerOfTwoIsLeast(p, p);
    assert CeilPowerOfTwo(p) == p;
  }

  datatype Size = Size(width: nat, height: nat)

  /** `resize_to_power_of_2`'s target size, chosen for each axis on its own. */
  function ResizeTarget(s: Size): (r: Result<Size, ImageError>)
    ensures r.Success? <==> s.width >= 1 && s.height >= 1
    ensures r.Success? ==> IsLeastPowerOfTwoAtLeast(r.value.width, s.width)
    ensures r.Success? ==> IsLeastPowerOfTwoAtLeast(r.value.height, s.height)
    ensures r.Failure? ==> r.error == MathDomainError
  {
    var w :- NearestPowerOf2(s.width);
    var h :- NearestPowerOf2(s.height);
    Success(Size(w, h))
  }

  /** Resizing to a power of two a second time changes nothing. */
  lemma ResizeTargetIdempotent(s: Size)
    requires ResizeTarget(s).Success?
    ensures ResizeTarget(ResizeTarget(s).value) == ResizeTarget(s)
  {
    var t := ResizeTarget(s).value;
    NearestPowerOf2OfPower(t.width);
    NearestPowerOf2OfPower(t.height);
  }

  /** Python's `int(x)`: truncation toward zero. */
  function Truncate(x: real): (n: int)
    ensures 0.0 <= x ==> n as real <= x < n as real + 1.0
    ensures x < 0.0 ==> n as real - 1.0 < x <= n as real
  {
    if 0.0 <= x then x.Floor else -((-x).Floor)
  }

  /** Truncation never reverses an order. */
  lemma TruncateMonotone(x: real, y: real)
    requires x <= y
    ensures Truncate(x) <= Truncate(y)
  {
  }

  /** A crop box, in the (left, upper, right, lower) order that `Image.crop` takes. */
  datatype Box = Box(left: int, upper: int, right: int, lower: int)

  /** One coordinate, scaled by the size of its axis and truncated: `int(a * d)`. */
  function Pixel(a: real, d: nat): int {
    Truncate(a * d as real)
  }

  /** Lines 47-53 of extract.py: left and right scale by the width, top and bottom by the height. */
  function PixelBox(rect: Rect, width: nat, height: nat): Box {
    Box(Pixel(rect.left, width), Pixel(rect.top, height), Pixel(rect.right, width), Pixel(rect.bottom, height))
  }

  lemma ScaleMonotone(a: real, b: real, d: nat)
    requires a <= b
    ensures a * d as real <= b * d as real
  {
    assert b * d as real - a * d as real == (b - a) * d as real;
  }

  /** Scaling by a size and truncating keeps the order of two coordinates. */
  lemma PixelMonotone(a: real, b: real, d: nat)
    requires a <= b
    ensures Pixel(a, d) <= Pixel(b, d)
  {
    var x, y := a * d as real, b * d as real;
    ScaleMonotone(a, b, d);
    assert x <= y;
    TruncateMonotone(x, y);
  }

  /** An ordered rectangle gives an ordered box, on each axis separately. */
  lemma PixelBoxMonotone(rect: Rect, width: nat, height: nat)
    ensures rect.left <= rect.right ==> PixelBox(rect, width, height).left <= PixelBox(rect, width, height).right
    ensures rect.top <= rect.bottom ==> PixelBox(rect, width, height).upper <= PixelBox(rect, width, height).lower
  {
    if rect.left <= rect.right {
      PixelMonotone(rect.left, rect.right, width);
    }
    if rect.top <= rect.bottom {
      PixelMonotone(rect.top, rect.bottom, height);
    }
  }

  /** A coordinate in [0, 1] scales to a pixel in [0, d]. */
  lemma PixelInRange(a: real, d: nat)
    requires 0.0 <= a <= 1.0
    ensures 0 <= Pixel(a, d) <= d
  {
    PixelMonotone(0.0, a, d);
    PixelMonotone(a, 1.0, d);
    assert 0.0 * d as real == 0.0 && 1.0 * d as real == d as real;
    assert Pixel(0.0, d) == 0 && Pixel(1.0, d) == d;
  }

  /** A rectangle inside the unit square gives a box inside the image. */
  lemma PixelBoxWithinImage(rect: Rect, width: nat, height: nat)
    requires 0.0 <= rect.left <= rect.right <= 1.0
    requires 0.0 <= rect.top <= rect.bottom <= 1.0
    ensures var b := PixelBox(rect, width, height);
            0 <= b.left <= b.right <= width && 0 <= b.upper <= b.lower <= height
  {
    PixelInRange(rect.left, width);
    PixelInRange(rect.right, width);
    PixelInRange(rect.top, height);
    PixelInRange(rect.bottom, height);
    PixelBoxMonotone(rect, width, height);
  }

  /**
   * When the scaled sides lie at least one pixel apart, truncation does not
   * collapse the box; closer sides may truncate to the same pixel.
   */
  lemma PixelBoxNonEmpty(rect: Rect, width: nat, height: nat)
    requires 0.0 <= rect.left && 0.0 <= rect.top
    requires rect.left * width as real + 1.0 <= rect.right * width as real
    requires rect.top * height as real + 1.0 <= rect.bottom * height as real
    ensures var b := PixelBox(rect, width, height);
            b.left < b.right && b.upper < b.lower
  {
    ScaleMonotone(0.0, rect.left, width);
    ScaleMonotone(0.0, rect.top, height);
  }

  /**
   * A colour mode: Pillow's "RGBA", "P", or any other mode by name (`name`
   * is never "RGBA" or "P"; every such mode is converted to RGBA anyway).
   */
  datatype Mode = RGBA | Palette | OtherMode(name: string)

  /** An image: its size and colour mode. */
  datatype Image = Image(size: Size, mode: Mode)

  /** `img.convert(mode)`. */
  function Convert(img: Image, mode: Mode): Image {
    img.(mode := mode)
  }

  /** The size of a crop with box `b`. */
  function CropSize(b: Box): Size
    requires b.left <= b.right && b.upper <= b.lower
  {
    Size(b.right - b.left, b.lower - b.upper)
  }

  /**
   * `img.crop(box)`: a box may reach past the image's edges, but right before
   * left or lower above upper raises.
   */
  function Crop(img: Image, b: Box): (r: Result<Image, ImageError>)
    ensures r.Success? <==> b.left <= b.right && b.upper <= b.lower
    ensures r.Success? ==> r.value == Image(CropSize(b), img.mode)
  {
    if b.right < b.left then Failure(RightBeforeLeft)
    else if b.lower < b.upper then Failure(LowerBeforeUpper)
    else Success(Image(CropSize(b), img.mode))
  }

  /** `resize_to_power_of_2(img)`, as far as the size goes. */
  function ResizeToPowerOf2(img: Image): (r: Result<Image, ImageError>)
    ensures r.Success? <==> ResizeTarget(img.size).Success?
    ensures r.Success? ==> r.value == Image(ResizeTarget(img.size).value, img.mode)
  {
    var target :- ResizeTarget(img.size);
    Success(Image(target, img.mode))
  }

  /** How the output is written. */
  datatype Encoding = Blp2 | Png(compressLevel: int)

  /** Lines 63-69 of extract.py: a ".blp" output path selects BLP2, any other path PNG. */
  function EncodingFor(outputFile: string, compressLevel: int): (e: Encoding)
    ensures e.Blp2? <==> EndsWith(outputFile, ".blp")
    ensures e.Png? ==> e.compressLevel == compressLevel
  {
    if EndsWith(outputFile, ".blp") then Blp2 else Png(compressLevel)
  }

  /** What one slice writes. */
  datatype Saved = Saved(path: string, image: Image, box: Box, encoding: Encoding)

  /**
   * The slice of an image of size `s` by `rect` raises no exception: the box
   * must be ordered for the crop and must hold a pixel for the resize (whose
   * `log2` refuses 0) or, without resizing, for the encoder.
   */
  predicate SliceSucceeds(s: Size, rect: Rect) {
    var b := PixelBox(rect, s.width, s.height);
    b.left < b.right && b.upper < b.lower
  }

  /**
   * What a successful slice of `source` writes: at `outputFile`, the crop by
   * the pixel box of `rect`, resized to powers of two when asked, in RGBA (or
   * palette for BLP2), with the encoding the output path selects.
   */
  predicate IsSliceOf(saved: Saved, source: Image, outputFile: string, rect: Rect, resize: bool, compressLevel: int) {
    && saved.path == outputFile
    && saved.box == PixelBox(rect, source.size.width, source.size.height)
    && saved.box.left <= saved.box.right && saved.box.upper <= saved.box.lower
    && (!resize ==> saved.image.size == CropSize(saved.box))
    && (resize ==> && IsLeastPowerOfTwoAtLeast(saved.image.size.width, CropSize(saved.box).width)
                   && IsLeastPowerOfTwoAtLeast(saved.image.size.height, CropSize(saved.box).height))
    && saved.encoding == EncodingFor(outputFile, compressLevel)
    && saved.image.mode == if EndsWith(outputFile, ".blp") then Palette else RGBA
  }

  /**
   * Lines 43-69 of extract.py, on the decoded image: normalise the mode to
   * RGBA, crop by the pixel box, resize when asked, and encode by the output
   * path's extension. An empty crop fails in the resize when asked, and in
   * the encoder otherwise.
   */
  method SliceBitmap(source: Image, outputFile: string, rect: Rect, resize: bool, compressLevel: int)
    returns (r: Result<Saved, ImageError>)
    ensures r.Success? <==> SliceSucceeds(source.size, rect)
    ensures r.Success? ==> IsSliceOf(r.value, source, outputFile, rect, resize, compressLevel)
    ensures r.Failure? ==> r.error in {RightBeforeLeft, LowerBeforeUpper, MathDomainError, EmptyImage}
    ensures r.Failure? && r.error == EmptyImage ==> !resize
    ensures r.Failure? && r.error == MathDomainError ==> resize
    ensures var b := PixelBox(rect, source.size.width, source.size.height);
            r.Failure? ==> (r.error in {RightBeforeLeft, LowerBeforeUpper} <==> !(b.left <= b.right && b.upper <= b.lower))
  {
    var img := source;
    if img.mode != RGBA {
      img := Convert(img, RGBA);
    }
    var box := PixelBox(rect, img.size.width, img.size.height);
    var cropped :- Crop(img, box);
    if resize {
      cropped :- ResizeToPowerOf2(cropped);
    }
    var encoding := EncodingFor(outputFile, compressLevel);
    if encoding == Blp2 {
      cropped := Convert(cropped, Palette);
    }
    if cropped.size.width == 0 || cropped.size.height == 0 {
      return Failure(EmptyImage);
    }
    r := Success(Saved(outputFile, cropped, box, encoding));
  }

  /** The sheet of 100 x 200 pixels cut by (0.25, 0.75, 0.5, 1.0) gives the box (25, 100, 75, 200), a 50 x 100 crop. */
  lemma PixelBoxExample()
    ensures PixelBox(Rect(0.25, 0.75, 0.5, 1.0), 100, 200) == Box(25, 100, 75, 200)
    ensures CropSize(Box(25, 100, 75, 200)) == Size(50, 100)
  {
    assert 0.25 * 100.0 == 25.0 && 0.75 * 100.0 == 75.0 && 0.5 * 200.0 == 100.0 && 1.0 * 200.0 == 200.0;
  }

  /** `slice_image`'s default `compress_level`. */
  const DefaultCompressLevel := 9

  /**
   * The arguments of one `slice_image` call; `rect` is None when one of the
   * four coordinates is nil or a string.
   */
  datatype SliceCall = SliceCall(input: string, output: string, rect: Option<Rect>, resize: bool, compressLevel: int)

  /** `slice_image` on these images writes its output. */
  predicate Writes(images: map<string, Image>, call: SliceCall) {
    call.input in images && call.rect.Some? && SliceSucceeds(images[call.input].size, call.rect.value)
  }

  /**
   * The files the tools see: which paths exist, the decodable images among
   * them, and the log of the slices written so far.
   */
  class Disk {
    var files: set<string>
    var images: map<string, Image>
    var log: seq<SliceCall>

    ghost predicate Valid()
      reads this
    {
      images.Keys <= files
    }

    /**
     * Since the disk held `files0` and `images0`, files were only added,
     * every image was kept, and every new file holds a new image.
     */
    ghost predicate Grown(files0: set<string>, images0: map<string, Image>)
      reads this
    {
      && files0 <= files
      && images.Keys == images0.Keys + (files - files0)
      && forall path :: path in images0 ==> images[path] == images0[path]
    }

    constructor (files: set<string>, images: map<string, Image>)
      requires images.Keys <= files
      ensures Valid()
      ensures this.files == files && this.images == images && log == []
    {
      this.files := files;
      this.images := images;
      log := [];
    }

    /**
     * `slice_image(input_file, output_file, left, right, top, bottom, resize,
     * compress_level)`: open the input, slice it, and save the result at the
     * output path. Nothing changes when it raises.
     */
    method SliceImage(call: SliceCall) returns (r: Result<Saved, ImageError>)
      requires Valid()
      modifies this
      ensures Valid()
      ensures r.Success? <==> Writes(old(images), call)
      ensures r.Success? ==> IsSliceOf(r.value, old(images)[call.input], call.output, call.rect.value, call.resize,
                                       call.compressLevel)
      ensures files == if r.Success? then old(files) + {call.output} else old(files)
      ensures images == if r.Success? then old(images)[call.output := r.value.image] else old(images)
      ensures log == if r.Success? then old(log) + [call] else old(log)
    {
      if call.input !in images {
        return Failure(CannotOpen);
      }
      if call.rect.None? {
        return Failure(BadCoordinates);
      }
      r := SliceBitmap(images[call.input], call.output, call.rect.value, call.resize, call.compressLevel);
      if r.Success? {
        files := files + {call.output};
        images := images[call.output := r.value.image];
        log := log + [call];
      }
    }
  }
}
