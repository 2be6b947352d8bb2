/** The staged QR search of `detect_and_crop_qr`: decoder backends tried in a fixed
    order on a fixed sequence of candidate images, the first success winning, and
    the detection box mapped back to the original image. Images, the image
    operations and the decoder backends are opaque: they are parameters. */
module QrSearch {
  import opened Wrappers

  /** A box (x_min, y_min, x_max, y_max) in pixels. */
  datatype BBox = BBox(x0: int, y0: int, x1: int, y1: int)

  /** What a backend returns: the decoded text ("" when nothing was decoded) and,
      when the backend knows it, the detection box in the searched image. */
  datatype Decoded = Decoded(text: string, bbox: Option<BBox>)

  /** `(None, None)`. */
  const NoDecode: Decoded := Decoded("", None)

  /** The three decoder backends over images of type `M`. */
  datatype Backends<!M> = Backends(wechat: M -> Decoded, zbar: M -> Decoded, cv: M -> Decoded)
  {
    /** The order in which `_try_decoders` consults them. */
    function Order(): (fns: seq<M -> Decoded>)
      ensures |fns| == 3 && fns[0] == wechat && fns[1] == zbar && fns[2] == cv
    {
      [wechat, zbar, cv]
    }
  }

  /** The result of the first function that decodes something, or `NoDecode`. */
  function FirstDecode<M>(fns: seq<M -> Decoded>, mat: M): (d: Decoded)
    ensures d.text == "" ==> d == NoDecode
    ensures d == NoDecode || d in Apply(fns, mat)
  {
    if fns == [] then NoDecode
    else if fns[0](mat).text != "" then fns[0](mat)
    else FirstDecode(fns[1..], mat)
  }

  /** The results of all the functions on one image. */
  function Apply<M>(fns: seq<M -> Decoded>, mat: M): (ds: seq<Decoded>)
    ensures |ds| == |fns| && forall i :: 0 <= i < |fns| ==> ds[i] == fns[i](mat)
  {
    seq(|fns|, i requires 0 <= i < |fns| => fns[i](mat))
  }

  /** `_try_decoders`: the backends in turn, stopping at the first that decodes. */
  method TryDecoders<M>(backends: Backends<M>, mat: M) returns (d: Decoded)
    ensures d == FirstDecode(backends.Order(), mat)
  {
    var fns := [backends.wechat, backends.zbar, backends.cv];
    for i := 0 to |fns|
      invariant FirstDecode(fns, mat) == FirstDecode(fns[i..], mat)
    {
      assert fns[i..][1..] == fns[i + 1..];
      var r := fns[i](mat);
      if r.text != "" {
        return r;
      }
    }
    return NoDecode;
  }

  /** The first decode is the result of the first function that decodes: every
      function before it decodes nothing; when none decodes, the result is empty. */
  lemma {:induction false} FirstDecodeIndex<M>(fns: seq<M -> Decoded>, mat: M) returns (k: nat)
    ensures k <= |fns|
    ensures forall j :: 0 <= j < k ==> fns[j](mat).text == ""
    ensures k == |fns| ==> FirstDecode(fns, mat) == NoDecode
    ensures k < |fns| ==> fns[k](mat).text != "" && FirstDecode(fns, mat) == fns[k](mat)
    decreases |fns|
  {
    if fns == [] {
      k := 0;
    } else if fns[0](mat).text != "" {
      k := 0;
    } else {
      var k' := FirstDecodeIndex(fns[1..], mat);
      k := k' + 1;
      forall j | 0 <= j < k
        ensures fns[j](mat).text == ""
      {
        if j > 0 {
          assert fns[j] == fns[1..][j - 1];
        }
      }
    }
  }

  /** A divisor that maps a box found in a scaled image back to the original. */
  type Scale = s: int | s >= 1 witness 1

  /** A preprocessed variant of the image and its scale. */
  datatype Variant<M> = Variant(mat: M, scale: Scale)

  /** The quarter turns of the last stage, in the order they are tried. */
  datatype Turn = Clockwise90 | Half | Counterclockwise90

  const Turns: seq<Turn> := [Clockwise90, Half, Counterclockwise90]

  /** The image operations the search uses: decoding the uploaded bytes, the
      image size, `_build_variants`, grey conversion, the 2x upscale, the
      small-angle rotation and the quarter turns. */
  datatype Imaging<!M> = Imaging(
    decode: seq<bv8> -> Option<M>,
    width: M -> nat,
    height: M -> nat,
    variants: M -> seq<Variant<M>>,
    gray: M -> M,
    upscale2: M -> M,
    rotate: (M, int) -> M,
    turn: (M, Turn) -> M)

  /** One image the search hands to the backends, with the scale that maps its
      box back and whether that box is kept (rotated images lose it). */
  datatype Candidate<M> = Candidate(mat: M, scale: Scale, keepsBox: bool)

  /** Stage 1: every preprocessed variant, in order, keeping its box. */
  function Stage1<M>(vs: seq<Variant<M>>): (cs: seq<Candidate<M>>)
    ensures |cs| == |vs|
    ensures forall i :: 0 <= i < |vs| ==> cs[i] == Candidate(vs[i].mat, vs[i].scale, true)
  {
    seq(|vs|, i requires 0 <= i < |vs| => Candidate(vs[i].mat, vs[i].scale, true))
  }

  /** The bases of the small-angle rotations: colour, grey and the 2x grey image. */
  function RotationBases<M>(im: Imaging<M>, img: M): (bs: seq<Variant<M>>)
    ensures |bs| == 3
    ensures bs[0] == Variant(img, 1) && bs[1] == Variant(im.gray(img), 1)
    ensures bs[2] == Variant(im.gray(im.upscale2(img)), 2)
  {
    [Variant(img, 1), Variant(im.gray(img), 1), Variant(im.gray(im.upscale2(img)), 2)]
  }

  /** The `n`-th of the small angles, in degrees: -20 to 20 in steps of 5 without 0. */
  function SmallAngle(n: int): int {
    if n < 4 then -20 + 5 * n else -15 + 5 * n
  }

  /** The small angles are exactly the non-zero multiples of 5 between -20 and
      20, in increasing order. */
  lemma SmallAngles()
    ensures forall n :: 0 <= n < 8 ==>
      -20 <= SmallAngle(n) <= 20 && SmallAngle(n) % 5 == 0 && SmallAngle(n) != 0
    ensures forall n :: 0 <= n < 7 ==> SmallAngle(n) < SmallAngle(n + 1)
    ensures forall a :: -20 <= a <= 20 && a % 5 == 0 && a != 0 ==>
      SmallAngle(if a < 0 then (a + 20) / 5 else (a + 15) / 5) == a
  {
  }

  /** Stage 2: each small angle in turn, over the three bases in order. */
  function Stage2<M>(im: Imaging<M>, img: M): (cs: seq<Candidate<M>>)
    ensures |cs| == 24
    ensures forall n :: 0 <= n < 24 ==>
      cs[n] == Candidate(im.rotate(RotationBases(im, img)[n % 3].mat, SmallAngle(n / 3)),
                         RotationBases(im, img)[n % 3].scale, false)
  {
    var bases := RotationBases(im, img);
    seq(24, n requires 0 <= n < 24 =>
      Candidate(im.rotate(bases[n % 3].mat, SmallAngle(n / 3)), bases[n % 3].scale, false))
  }

  /** Candidate `b` of angle number `j` in stage 2. */
  lemma Stage2At<M>(im: Imaging<M>, img: M, j: nat, b: nat)
    requires j < 8 && b < 3
    ensures var base := RotationBases(im, img)[b];
      Stage2(im, img)[3 * j + b] == Candidate(im.rotate(base.mat, SmallAngle(j)), base.scale, false)
  {
    var n := 3 * j + b;
    assert n / 3 == j && n % 3 == b;
  }

  /** Stage 3: each quarter turn in turn, the colour image before the grey one. */
  function Stage3<M>(im: Imaging<M>, img: M): (cs: seq<Candidate<M>>)
    ensures |cs| == 6
    ensures forall n :: 0 <= n < 6 ==>
      cs[n] == Candidate(im.turn(if n % 2 == 0 then img else im.gray(img), Turns[n / 2]), 1, false)
  {
    seq(6, n requires 0 <= n < 6 =>
      Candidate(im.turn(if n % 2 == 0 then img else im.gray(img), Turns[n / 2]), 1, false))
  }

  /** Every image the search may try, in the order it tries them. */
  function Candidates<M>(im: Imaging<M>, img: M): seq<Candidate<M>> {
    Stage1(im.variants(img)) + Stage2(im, img) + Stage3(im, img)
  }

  /** What the search keeps from a success: the text, the box when the stage keeps
      it, and the scale. */
  datatype Hit = Hit(text: string, rawBox: Option<BBox>, scale: Scale)

  function Attempt<M>(backends: Backends<M>, c: Candidate<M>): Decoded {
    FirstDecode(backends.Order(), c.mat)
  }

  function HitOf<M>(d: Decoded, c: Candidate<M>): Hit {
    Hit(d.text, if c.keepsBox then d.bbox else None, c.scale)
  }

  /** The first candidate on which some backend decodes something. */
  function FirstHit<M>(backends: Backends<M>, cs: seq<Candidate<M>>): (r: Option<Hit>)
    ensures r.Some? ==> r.value.text != ""
  {
    if cs == [] then None
    else
      var d := Attempt(backends, cs[0]);
      if d.text != "" then Some(HitOf(d, cs[0])) else FirstHit(backends, cs[1..])
  }

  /** The first hit is the hit at the first candidate that decodes: every candidate
      before it decodes nothing; there is no hit exactly when none decodes. */
  lemma {:induction false} FirstHitIndex<M>(backends: Backends<M>, cs: seq<Candidate<M>>)
    returns (k: nat)
    ensures k <= |cs|
    ensures forall j :: 0 <= j < k ==> Attempt(backends, cs[j]).text == ""
    ensures k == |cs| <==> FirstHit(backends, cs) == None
    ensures k < |cs| ==> Attempt(backends, cs[k]).text != ""
    ensures k < |cs| ==> FirstHit(backends, cs) == Some(HitOf(Attempt(backends, cs[k]), cs[k]))
    decreases |cs|
  {
    if cs == [] {
      k := 0;
    } else if Attempt(backends, cs[0]).text != "" {
      k := 0;
    } else {
      var k' := FirstHitIndex(backends, cs[1..]);
      k := k' + 1;
      forall j | 0 <= j < k
        ensures Attempt(backends, cs[j]).text == ""
      {
        if j > 0 {
          assert cs[j] == cs[1..][j - 1];
        }
      }
    }
  }

  /** The first hit of a concatenation: the first part's, or else the second part's. */
  lemma {:induction false} FirstHitAppend<M>(backends: Backends<M>, a: seq<Candidate<M>>,
                                             b: seq<Candidate<M>>)
    ensures FirstHit(backends, a + b) ==
      if FirstHit(backends, a).Some? then FirstHit(backends, a) else FirstHit(backends, b)
    decreases |a|
  {
    if a == [] {
      assert a + b == b;
    } else {
      assert (a + b)[0] == a[0];
      assert (a + b)[1..] == a[1..] + b;
      FirstHitAppend(backends, a[1..], b);
    }
  }

  /** A miss at position `k` after misses everywhere before it. */
  lemma {:induction false} MissAt<M>(backends: Backends<M>, cs: seq<Candidate<M>>, k: nat)
    requires k < |cs| && FirstHit(backends, cs[..k]) == None
    requires Attempt(backends, cs[k]).text == ""
    ensures FirstHit(backends, cs[..k + 1]) == None
    decreases k
  {
    if k > 0 {
      assert Attempt(backends, cs[0]).text == "" by {
        assert cs[..k][0] == cs[0];
      }
      assert cs[..k][1..] == cs[1..][..k - 1];
      assert cs[..k + 1][1..] == cs[1..][..k];
      MissAt(backends, cs[1..], k - 1);
    }
  }

  /** A success at position `k` after misses everywhere before it decides the search. */
  lemma {:induction false} HitAt<M>(backends: Backends<M>, cs: seq<Candidate<M>>, k: nat)
    requires k < |cs| && FirstHit(backends, cs[..k]) == None
    requires Attempt(backends, cs[k]).text != ""
    ensures FirstHit(backends, cs) == Some(HitOf(Attempt(backends, cs[k]), cs[k]))
    decreases k
  {
    if k > 0 {
      assert Attempt(backends, cs[0]).text == "" by {
        assert cs[..k][0] == cs[0];
      }
      assert cs[..k][1..] == cs[1..][..k - 1];
      HitAt(backends, cs[1..], k - 1);
    }
  }

  /** The padding added around a detected box. */
  const Pad: int := 12

  function Max(a: int, b: int): int { if a < b then b else a }
  function Min(a: int, b: int): int { if a < b then a else b }

  /** The detected box divided back by the scale (floor division), padded by 12
      pixels and clamped to the image. */
  function CropBox(b: BBox, s: Scale, w: nat, h: nat): (r: BBox)
    ensures 0 <= r.x0 && 0 <= r.y0 && r.x1 <= w && r.y1 <= h
    ensures r.x0 == 0 || r.x0 == b.x0 / s - Pad
    ensures r.y0 == 0 || r.y0 == b.y0 / s - Pad
    ensures r.x1 == w || r.x1 == b.x1 / s + Pad
    ensures r.y1 == h || r.y1 == b.y1 / s + Pad
    ensures r.x0 >= b.x0 / s - Pad && r.y0 >= b.y0 / s - Pad
    ensures r.x1 <= b.x1 / s + Pad && r.y1 <= b.y1 / s + Pad
  {
    BBox(Max(b.x0 / s - Pad, 0), Max(b.y0 / s - Pad, 0),
         Min(b.x1 / s + Pad, w), Min(b.y1 / s + Pad, h))
  }

  /** `q / s <= n` when `q <= s * n`. */
  lemma DivBound(q: int, s: Scale, n: nat)
    requires q <= s * n
    ensures q / s <= n
  {
    if q / s > n {
      MulMonotonic(s, n + 1, q / s);
    }
  }

  lemma {:induction false} MulMonotonic(s: nat, a: int, b: int)
    requires a <= b
    ensures s * a <= s * b
    decreases b - a
  {
    if a < b {
      MulMonotonic(s, a, b - 1);
      assert s * b == s * (b - 1) + s;
    }
  }

  /** Floor division by a positive scale is monotonic. */
  lemma DivMonotonic(p: int, q: int, s: Scale)
    requires p <= q
    ensures p / s <= q / s
  {
    var qp, qq := p / s, q / s;
    if qp > qq {
      MulMonotonic(s, qq + 1, qp);
    }
  }

  /** A box detected inside the scaled image yields an ordered crop that contains
      the detection mapped back to the original image. */
  lemma CropContains(b: BBox, s: Scale, w: nat, h: nat)
    requires 0 <= b.x0 <= b.x1 <= s * w && 0 <= b.y0 <= b.y1 <= s * h
    ensures var r := CropBox(b, s, w, h);
      && r.x0 <= b.x0 / s <= b.x1 / s <= r.x1
      && r.y0 <= b.y0 / s <= b.y1 / s <= r.y1
  {
    CropAxis(b.x0, b.x1, s, w);
    CropAxis(b.y0, b.y1, s, h);
  }

  /** One axis of `CropContains`. */
  lemma CropAxis(lo: int, hi: int, s: Scale, n: nat)
    requires 0 <= lo <= hi <= s * n
    ensures Max(lo / s - Pad, 0) <= lo / s <= hi / s <= Min(hi / s + Pad, n)
  {
    DivBound(hi, s, n);
    DivMonotonic(lo, hi, s);
  }

  /** The central 60% of the image, for hits whose box was lost to a rotation:
      it starts at a fifth of each side and is centred to within a pixel. */
  function CentralBox(w: nat, h: nat): (r: BBox)
    ensures 0 <= r.x0 <= r.x1 <= w && 0 <= r.y0 <= r.y1 <= h
    ensures w - 1 <= r.x0 + r.x1 <= w && h - 1 <= r.y0 + r.y1 <= h
    ensures 5 * r.x0 <= w < 5 * r.x0 + 5 && 5 * r.y0 <= h < 5 * r.y0 + 5
    ensures 5 * r.x1 <= 4 * w < 5 * r.x1 + 5 && 5 * r.y1 <= 4 * h < 5 * r.y1 + 5
  {
    BBox(w / 5, h / 5, w * 4 / 5, h * 4 / 5)
  }

  /** What `detect_and_crop_qr` reports: nothing, or the text and the crop box. */
  datatype Detection = NotFound | Found(text: string, box: BBox)

  /** The crop for a hit: the mapped detection box when the stage kept it, the
      central box otherwise. */
  function Outcome(hit: Option<Hit>, w: nat, h: nat): (r: Detection)
    ensures r.NotFound? <==> hit.None?
    ensures r.Found? ==> r.text == hit.value.text
    ensures r.Found? && hit.value.rawBox.None? ==> r.box == CentralBox(w, h)
    ensures r.Found? && hit.value.rawBox.Some? ==>
      r.box == CropBox(hit.value.rawBox.value, hit.value.scale, w, h)
  {
    match hit
    case None => NotFound
    case Some(x) =>
      Found(x.text, if x.rawBox.Some? then CropBox(x.rawBox.value, x.scale, w, h)
                    else CentralBox(w, h))
  }

  /** The search, as a function of the uploaded bytes. */
  function Detect<M>(backends: Backends<M>, im: Imaging<M>, bytes: seq<bv8>): Detection {
    match im.decode(bytes)
    case None => NotFound
    case Some(img) =>
      Outcome(FirstHit(backends, Candidates(im, img)), im.width(img), im.height(img))
  }

  /** Only stage 1 keeps boxes: when no variant decodes, a hit carries no box and
      the crop is the central box. */
  lemma RotationHitsLoseBox<M>(backends: Backends<M>, im: Imaging<M>, img: M)
    requires FirstHit(backends, Stage1(im.variants(img))) == None
    ensures FirstHit(backends, Candidates(im, img)).Some? ==>
      FirstHit(backends, Candidates(im, img)).value.rawBox == None
    ensures FirstHit(backends, Candidates(im, img)).Some? ==>
      Outcome(FirstHit(backends, Candidates(im, img)), im.width(img), im.height(img)).box ==
        CentralBox(im.width(img), im.height(img))
  {
    var s1 := Stage1(im.variants(img));
    var rest := Stage2(im, img) + Stage3(im, img);
    assert Candidates(im, img) == s1 + rest;
    FirstHitAppend(backends, s1, rest);
    var k := FirstHitIndex(backends, rest);
    if k < |rest| {
      assert !rest[k].keepsBox;
    }
  }

  /** What a stage's search variables say about its candidates: nothing decoded
      and no hit, or the first hit. */
  predicate Reports<M>(backends: Backends<M>, cs: seq<Candidate<M>>,
                       data: string, rawBox: Option<BBox>, scale: Scale)
  {
    if data == "" then FirstHit(backends, cs) == None
    else FirstHit(backends, cs) == Some(Hit(data, rawBox, scale))
  }

  /** Stage 1: the variants in turn, stopping at the first that decodes. */
  method SearchVariants<M>(backends: Backends<M>, variants: seq<Variant<M>>)
    returns (data: string, rawBox: Option<BBox>, scale: Scale)
    ensures Reports(backends, Stage1(variants), data, rawBox, scale)
  {
    ghost var cs := Stage1(variants);
    data, rawBox, scale := "", None, 1;
    var i := 0;
    while i < |variants|
      invariant 0 <= i <= |variants|
      invariant FirstHit(backends, cs[..i]) == None
    {
      var d := TryDecoders(backends, variants[i].mat);
      if d.text != "" {
        HitAt(backends, cs, i);
        data, rawBox, scale := d.text, d.bbox, variants[i].scale;
        return;
      }
      MissAt(backends, cs, i);
      i := i + 1;
    }
    assert cs[..i] == cs;
  }

  /** Stage 2: the angles -20..20 in steps of 5, skipping 0, each over the three
      bases in order; a hit discards its box. */
  method SearchSmallAngles<M>(backends: Backends<M>, im: Imaging<M>, img: M)
    returns (data: string, rawBox: Option<BBox>, scale: Scale)
    ensures Reports(backends, Stage2(im, img), data, rawBox, scale)
    ensures rawBox == None
  {
    ghost var cs := Stage2(im, img);
    var gray := im.gray(img);
    var bigGray := im.gray(im.upscale2(img));
    var bases := [Variant(img, 1), Variant(gray, 1), Variant(bigGray, 2)];
    assert bases == RotationBases(im, img);
    data, rawBox, scale := "", None, 1;
    var angle := -20;
    ghost var done := 0;
    while angle < 25
      invariant 0 <= done <= 8 && angle <= 25
      invariant angle <= 0 ==> angle == -20 + 5 * done
      invariant angle > 0 ==> angle == -15 + 5 * done
      invariant FirstHit(backends, cs[..3 * done]) == None
    {
      if angle != 0 {
        assert SmallAngle(done) == angle;
        for b := 0 to 3
          invariant FirstHit(backends, cs[..3 * done + b]) == None
        {
          ghost var n := 3 * done + b;
          Stage2At(im, img, done, b);
          var d := TryDecoders(backends, im.rotate(bases[b].mat, angle));
          if d.text != "" {
            HitAt(backends, cs, n);
            data, rawBox, scale := d.text, None, bases[b].scale;
            return;
          }
          MissAt(backends, cs, n);
        }
        done := done + 1;
      }
      angle := angle + 5;
    }
    assert cs[..3 * done] == cs;
  }

  /** Stage 3: the quarter turns in order, the colour image before the grey one;
      a hit discards its box and has scale 1. */
  method SearchQuarterTurns<M>(backends: Backends<M>, im: Imaging<M>, img: M)
    returns (data: string, rawBox: Option<BBox>, scale: Scale)
    ensures Reports(backends, Stage3(im, img), data, rawBox, scale)
    ensures rawBox == None && scale == 1
  {
    ghost var cs := Stage3(im, img);
    var gray := im.gray(img);
    data, rawBox, scale := "", None, 1;
    for t := 0 to 3
      invariant FirstHit(backends, cs[..2 * t]) == None
    {
      var mats := [im.turn(img, Turns[t]), im.turn(gray, Turns[t])];
      for m := 0 to 2
        invariant FirstHit(backends, cs[..2 * t + m]) == None
      {
        ghost var n := 2 * t + m;
        assert n / 2 == t && n % 2 == m;
        assert cs[n] == Candidate(mats[m], 1, false);
        var d := TryDecoders(backends, mats[m]);
        if d.text != "" {
          HitAt(backends, cs, n);
          data := d.text;
          return;
        }
        MissAt(backends, cs, n);
      }
    }
    assert cs[..6] == cs;
  }

  /** `detect_and_crop_qr` without the image work: decode the bytes; try every
      variant, then the small-angle rotations, then the quarter turns, stopping at
      the first decode; map the box back (or take the central box). */
  method DetectAndCropQr<M>(backends: Backends<M>, im: Imaging<M>, bytes: seq<bv8>)
    returns (r: Detection)
    ensures r == Detect(backends, im, bytes)
  {
    var decoded := im.decode(bytes);
    if decoded.None? {
      return NotFound;
    }
    var img := decoded.value;
    var w, h := im.width(img), im.height(img);
    ghost var s1, s2, s3 := Stage1(im.variants(img)), Stage2(im, img), Stage3(im, img);
    assert Candidates(im, img) == (s1 + s2) + s3;
    FirstHitAppend(backends, s1, s2);
    FirstHitAppend(backends, s1 + s2, s3);

    var data, rawBox, scale := SearchVariants(backends, im.variants(img));
    if data == "" {
      data, rawBox, scale := SearchSmallAngles(backends, im, img);
    }
    if data == "" {
      data, rawBox, scale := SearchQuarterTurns(backends, im, img);
    }
    if data == "" {
      return NotFound;
    }
    if rawBox.Some? {
      r := Found(data, CropBox(rawBox.value, scale, w, h));
    } else {
      r := Found(data, CentralBox(w, h));
    }
  }
}
