/** The size arithmetic of `prepare_image`: first shrink so the longer edge is
    at most 1920, then enlarge so the shorter edge is at least 480. app.py
    multiplies each side by a float ratio and truncates; here the ratio is the
    exact fraction and the product is floored. Decoding and re-encoding the
    pixels are outside the model: the decoder contributes only the size it
    read, or nothing when the bytes are not an image. */
module ImageSize {
  import opened Results

  const MaxImageSize := 1920
  const MinShortSide := 480

  /** The longest side the JPEG encoder behind `img.save` accepts (libjpeg's
      `JPEG_MAX_DIMENSION`). */
  const MaxJpegSide := 65500

  datatype Size = Size(width: nat, height: nat) {
    function Longer(): nat { if width >= height then width else height }
    function Shorter(): nat { if width <= height then width else height }
  }

  // Floor-division facts the solver does not find on its own.

  lemma DivSandwich(p: nat, m: nat)
    requires m > 0
    ensures m * (p / m) <= p < m * (p / m) + m
  {
  }

  lemma MulLeq(a: nat, b: nat, c: nat)
    requires a <= b
    ensures c * a <= c * b
  {
  }

  lemma MulLeqInv(c: nat, a: nat, b: nat)
    requires c > 0 && c * a <= c * b
    ensures a <= b
  {
  }

  lemma MulLtInv(c: nat, a: nat, b: nat)
    requires c * a < c * b
    ensures a < b
  {
  }

  lemma DivMonotone(p: nat, r: nat, m: nat)
    requires m > 0 && p <= r
    ensures p / m <= r / m
  {
    var q1, q2 := p / m, r / m;
    DivSandwich(p, m);
    DivSandwich(r, m);
    assert m * q2 + m == m * (q2 + 1);
    MulLtInv(m, q1, q2 + 1);
  }

  lemma DivExact(k: nat, m: nat)
    requires m > 0
    ensures m * k / m == k
  {
    var q := m * k / m;
    DivSandwich(m * k, m);
    MulLeqInv(m, q, k);
    assert m * q + m == m * (q + 1);
    MulLtInv(m, k, q + 1);
  }

  /** `floor(a * k / m)` for a side `a` no longer than `m`: at most `k`, exactly
      `k` for the side equal to `m`, and 0 exactly when `a * k < m`. */
  lemma ScaleDown(a: nat, k: nat, m: nat)
    requires 0 < m && a <= m
    ensures a * k / m <= k
    ensures a == m ==> a * k / m == k
    ensures a * k / m == 0 <==> a * k < m
    ensures k <= m ==> a * k / m <= a
  {
    if k <= m {
      MulLeq(k, m, a);
      assert a * k <= m * a;
      DivMonotone(a * k, m * a, m);
      DivExact(a, m);
    }
    MulLeq(a, m, k);
    assert a * k <= m * k;
    DivMonotone(a * k, m * k, m);
    DivExact(k, m);
    var q := a * k / m;
    DivSandwich(a * k, m);
    if q > 0 {
      MulLeq(1, q, m);
    }
  }

  /** `floor(a * k / n)` for a side `a` at least `n` with `n < k`: at least `k`,
      exactly `k` for the side equal to `n`, and no shorter than `a`. */
  lemma ScaleUp(a: nat, k: nat, n: nat)
    requires 0 < n < k && n <= a
    ensures a * k / n >= k
    ensures a == n ==> a * k / n == k
    ensures a * k / n >= a
  {
    MulLeq(n, a, k);
    assert n * k <= a * k;
    DivMonotone(n * k, a * k, n);
    DivExact(k, n);
    MulLeq(n, k, a);
    assert n * a <= a * k;
    DivMonotone(n * a, a * k, n);
    DivExact(a, n);
  }

  /** `q` is `floor(a * k / m)`: the side `a` scaled by `k / m`, truncated. */
  predicate Floored(a: nat, k: nat, m: nat, q: nat)
  {
    m * q <= a * k < m * q + m
  }

  /** The first step: when the longer edge exceeds 1920, both sides scale by
      `1920 / longer`; a side that rounds down to 0 makes the resize fail. */
  function Downscale(s: Size): (r: Result<Size, Failure>)
    ensures s.Longer() <= MaxImageSize ==> r == Ok(s)
    ensures r.Ok? ==> r.value.Longer() <= MaxImageSize
    ensures s.Longer() > MaxImageSize && r.Ok? ==> r.value.Longer() == MaxImageSize
    ensures r.Ok? ==> r.value.width <= s.width && r.value.height <= s.height
    ensures r.Err? <==> s.Longer() > MaxImageSize && s.Shorter() * MaxImageSize < s.Longer()
    ensures r.Err? ==> r.error == InputError(EmptyResize)
    ensures s.Longer() > MaxImageSize && r.Ok? ==>
      Floored(s.width, MaxImageSize, s.Longer(), r.value.width)
      && Floored(s.height, MaxImageSize, s.Longer(), r.value.height)
  {
    var m := s.Longer();
    if m <= MaxImageSize then Ok(s)
    else
      var w := s.width * MaxImageSize / m;
      var h := s.height * MaxImageSize / m;
      ScaleDown(s.width, MaxImageSize, m);
      ScaleDown(s.height, MaxImageSize, m);
      assert s.width == m || s.height == m;
      assert s.width <= s.height ==> s.Shorter() == s.width && s.Longer() == s.height;
      assert s.width > s.height ==> s.Shorter() == s.height && s.Longer() == s.width;
      assert s.width * MaxImageSize >= m || s.height * MaxImageSize >= m;
      DivSandwich(s.width * MaxImageSize, m);
      DivSandwich(s.height * MaxImageSize, m);
      if w == 0 || h == 0 then Err(InputError(EmptyResize)) else Ok(Size(w, h))
  }

  /** The second step: when the shorter edge is under 480, both sides scale by
      `480 / shorter`; a shorter edge of 0 is a division by zero. */
  function Upscale(s: Size): (r: Result<Size, Failure>)
    ensures s.Shorter() >= MinShortSide ==> r == Ok(s)
    ensures r.Err? <==> s.Shorter() == 0
    ensures r.Err? ==> r.error == InputError(ZeroShortSide)
    ensures r.Ok? ==> r.value.Shorter() >= MinShortSide
    ensures s.Shorter() < MinShortSide && r.Ok? ==> r.value.Shorter() == MinShortSide
    ensures r.Ok? ==> r.value.width >= s.width && r.value.height >= s.height
    ensures 0 < s.Shorter() < MinShortSide ==>
      r.Ok? && Floored(s.width, MinShortSide, s.Shorter(), r.value.width)
      && Floored(s.height, MinShortSide, s.Shorter(), r.value.height)
  {
    var n := s.Shorter();
    if n >= MinShortSide then Ok(s)
    else if n == 0 then Err(InputError(ZeroShortSide))
    else
      ScaleUp(s.width, MinShortSide, n);
      ScaleUp(s.height, MinShortSide, n);
      DivSandwich(s.width * MinShortSide, n);
      DivSandwich(s.height * MinShortSide, n);
      Ok(Size(s.width * MinShortSide / n, s.height * MinShortSide / n))
  }

  /** The size `prepare_image` re-encodes, or the 400 it raises: the
      encoder refuses a side longer than `MaxJpegSide`. */
  function PrepareSize(decoded: Option<Size>): (r: Result<Size, Failure>)
    ensures decoded.None? ==> r == Err(InputError(Undecodable))
    ensures r.Err? ==> HttpStatus(r.error) == 400
    ensures r.Ok? ==> r.value.Shorter() >= MinShortSide && r.value.Longer() <= MaxJpegSide
    ensures decoded.Some? && Downscale(decoded.value).Err? ==> r == Downscale(decoded.value)
    ensures decoded.Some? && Downscale(decoded.value).Ok? && Upscale(Downscale(decoded.value).value).Err? ==>
      r == Upscale(Downscale(decoded.value).value)
    ensures decoded.Some? && Downscale(decoded.value).Ok? && Upscale(Downscale(decoded.value).value).Ok? ==>
      var d := Upscale(Downscale(decoded.value).value).value;
      r == if d.Longer() > MaxJpegSide then Err(InputError(TooLargeToEncode)) else Ok(d)
    ensures decoded.Some? ==>
      decoded.value.Longer() <= MaxImageSize && decoded.value.Shorter() >= MinShortSide ==>
      r == Ok(decoded.value)
  {
    match decoded
    case None => Err(InputError(Undecodable))
    case Some(s) =>
      match Downscale(s)
      case Err(e) => Err(e)
      case Ok(d) =>
        match Upscale(d)
        case Err(e) => Err(e)
        case Ok(u) => if u.Longer() > MaxJpegSide then Err(InputError(TooLargeToEncode)) else Ok(u)
  }

  /** When no enlargement is needed after shrinking, the longer edge stays
      within 1920; this is the only case in which both bounds hold jointly. */
  lemma LongerEdgeBound(s: Size)
    requires Downscale(s).Ok? && Downscale(s).value.Shorter() >= MinShortSide
    ensures PrepareSize(Some(s)) == Downscale(s)
    ensures PrepareSize(Some(s)).value.Longer() <= MaxImageSize
  {
  }

  /** A 4000 x 3000 image becomes 1920 x 1440. */
  lemma PrepareLandscape()
    ensures PrepareSize(Some(Size(4000, 3000))) == Ok(Size(1920, 1440))
  {
    assert Downscale(Size(4000, 3000)) == Ok(Size(1920, 1440));
  }

  /** A 4000 x 10 strip is shrunk to 1920 x 4 and enlarged to 230400 x 480,
      which the JPEG encoder refuses. */
  lemma StripTooLongToEncode()
    ensures PrepareSize(Some(Size(4000, 10))) == Err(InputError(TooLargeToEncode))
  {
    assert Downscale(Size(4000, 10)) == Ok(Size(1920, 4));
    assert Upscale(Size(1920, 4)) == Ok(Size(230400, 480));
  }

  /** The enlargement does not re-check the longer edge: a 4000 x 100 strip is
      shrunk to 1920 x 48 and then enlarged to 19200 x 480. */
  lemma EnlargeExceedsLongerBound()
    ensures PrepareSize(Some(Size(4000, 100))) == Ok(Size(19200, 480))
    ensures PrepareSize(Some(Size(4000, 100))).value.Longer() > MaxImageSize
  {
    assert Downscale(Size(4000, 100)) == Ok(Size(1920, 48));
    assert Upscale(Size(1920, 48)) == Ok(Size(19200, 480));
  }
}
