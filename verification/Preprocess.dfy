/** The decision layer of image preprocessing.

    Pixel work is left to the imaging library; here a run is described by the
    list of transforms it applies (a Plan) and by the size of the image it
    produces. Brightness and contrast are the mean and standard deviation of
    the grey levels, computed by the library and taken as inputs.

    - SmartPlan / SmartPreprocessImage: smart_preprocess_image of the improved script.
    - EnhancedPlan / EnhanceImageForOcr: enhance_image_for_ocr of the enhanced script. */
module Preprocess {

  /** The image mode as the imaging library reports it. */
  datatype Mode = Rgb | Luminance | OtherMode

  /** One library transform, with its parameters (factors and radii in tenths). */
  datatype Transform =
    | ConvertRgb
    | ConvertGray
    | EnhanceContrast(factorTenths: nat)
    | GaussianBlur(radiusTenths: nat)
    | Invert
    | MedianFilter(size: nat)
    | Resize(width: nat, height: nat)
    | UnsharpMask(radius: nat, percent: nat, threshold: nat)

  /** The transforms of one run, in order, and the size of the image they produce. */
  datatype Plan = Plan(steps: seq<Transform>, width: nat, height: nat)

  /** An image file: its size and the transforms applied to it so far. */
  datatype Picture = Picture(width: nat, height: nat, history: seq<Transform>)

  /** Image statistics: for smart_preprocess_image they are measured after the
      RGB conversion and before the contrast branch. */
  datatype Stats = Stats(brightness: real, contrast: real)

  /** A library call that raises: the k-th transform of the plan, or the final
      save when k is the number of transforms. */
  datatype Fault = NoFault | FaultAt(call: nat)

  /** The image file the OCR stage reads afterwards. A save that raises has
      already opened the existing file for writing, so what is left in it is
      Damaged: no longer the original picture, and not determined here. */
  datatype ImageFile = File(picture: Picture) | Damaged

  /** What a preprocessing function returns, and the file the OCR stage then reads. */
  datatype Preprocessed = Preprocessed(ok: bool, file: ImageFile)

  datatype SmartOutcome = Planned(plan: Plan) | DivisionByZero

  function Max(a: nat, b: nat): nat { if a >= b then a else b }

  function Min(a: nat, b: nat): nat { if a <= b then a else b }

  predicate Resizes(steps: seq<Transform>) {
    exists i :: 0 <= i < |steps| && steps[i].Resize?
  }

  /** The plan's transforms run in increasing stage order, each stage at most once. */
  predicate InStageOrder(steps: seq<Transform>, stage: Transform -> nat) {
    forall i, j :: 0 <= i < j < |steps| ==> stage(steps[i]) < stage(steps[j])
  }

  /** The picture after a complete run of the plan and the save. */
  function Apply(pic: Picture, plan: Plan): Picture {
    Picture(plan.width, plan.height, pic.history + plan.steps)
  }

  /** A run of `steps` transforms and one save completes unless one of those calls raises. */
  predicate Completes(fault: Fault, steps: nat) {
    fault.NoFault? || fault.call > steps
  }

  /** The call that raises is the final save. */
  predicate SaveFails(fault: Fault, steps: nat) {
    fault == FaultAt(steps)
  }

  /** The file after running `plan` on `pic` with `fault`: the processed picture
      when every call succeeds, a damaged file when the save raises, and the
      picture unchanged when an earlier call raises. */
  function Run(pic: Picture, plan: Plan, fault: Fault): (r: Preprocessed)
    ensures r.ok <==> Completes(fault, |plan.steps|)
    ensures r.ok ==> r.file == File(Apply(pic, plan))
    ensures SaveFails(fault, |plan.steps|) ==> !r.ok && r.file == Damaged
    ensures !r.ok && !SaveFails(fault, |plan.steps|) ==> r.file == File(pic)
  {
    if Completes(fault, |plan.steps|) then Preprocessed(true, File(Apply(pic, plan)))
    else if SaveFails(fault, |plan.steps|) then Preprocessed(false, Damaged)
    else Preprocessed(false, File(pic))
  }

  /** A call that raises before the save leaves the file as it was. */
  lemma FaultBeforeSaveKeepsFile(pic: Picture, plan: Plan, k: nat)
    requires k < |plan.steps|
    ensures Run(pic, plan, FaultAt(k)) == Preprocessed(false, File(pic))
  {
  }

  /** A save that raises returns False and leaves a damaged file. */
  lemma SaveFaultDamagesFile(pic: Picture, plan: Plan)
    ensures Run(pic, plan, FaultAt(|plan.steps|)) == Preprocessed(false, Damaged)
  {
  }

  /** [t] when `when` holds, nothing otherwise: one conditional library call. */
  function Opt(when: bool, t: Transform): seq<Transform> {
    if when then [t] else []
  }

  /** In stage order, with every stage in lo..hi-1. */
  predicate Ranked(steps: seq<Transform>, stage: Transform -> nat, lo: nat, hi: nat) {
    && InStageOrder(steps, stage)
    && forall i :: 0 <= i < |steps| ==> lo <= stage(steps[i]) < hi
  }

  /** A single conditional call is ranked at its own stage. */
  lemma RankedOpt(when: bool, t: Transform, stage: Transform -> nat)
    ensures Ranked(Opt(when, t), stage, stage(t), stage(t) + 1)
  {
  }

  /** Two ranked runs over adjacent stage ranges make one ranked run. */
  lemma RankedConcat(a: seq<Transform>, b: seq<Transform>, stage: Transform -> nat, lo: nat, mid: nat, hi: nat)
    requires lo <= mid <= hi
    requires Ranked(a, stage, lo, mid) && Ranked(b, stage, mid, hi)
    ensures Ranked(a + b, stage, lo, hi)
  {
    var s := a + b;
    forall i, j | 0 <= i < j < |s| ensures stage(s[i]) < stage(s[j]) {
      if j < |a| {
        assert s[i] == a[i] && s[j] == a[j];
      } else if i < |a| {
        assert s[i] == a[i] && s[j] == b[j - |a|];
      } else {
        assert s[i] == b[i - |a|] && s[j] == b[j - |a|];
      }
    }
    forall i | 0 <= i < |s| ensures lo <= stage(s[i]) < hi {
      if i < |a| { assert s[i] == a[i]; } else { assert s[i] == b[i - |a|]; }
    }
  }

  /** Three ranked runs over adjacent stage ranges make one ranked run. */
  lemma RankedThree(a: seq<Transform>, b: seq<Transform>, c: seq<Transform>, stage: Transform -> nat, m1: nat, m2: nat, hi: nat)
    requires m1 <= m2 <= hi
    requires Ranked(a, stage, 0, m1) && Ranked(b, stage, m1, m2) && Ranked(c, stage, m2, hi)
    ensures Ranked(a + b + c, stage, 0, hi)
  {
    RankedConcat(a, b, stage, 0, m1, m2);
    RankedConcat(a + b, c, stage, 0, m2, hi);
  }

  /** Membership in front + tail, for a transform of a kind the tail does not hold. */
  lemma InFront(front: seq<Transform>, tail: seq<Transform>, x: Transform)
    requires forall y :: y in tail ==> y.Resize? || y.UnsharpMask?
    requires !x.Resize? && !x.UnsharpMask?
    ensures x in front + tail <==> x in front
  {
  }

  // ---------------------------------------------------------------------------
  // smart_preprocess_image (improved script)

  /** The order in which smart_preprocess_image applies its transforms. */
  function SmartStage(t: Transform): nat {
    match t
    case ConvertRgb => 0
    case EnhanceContrast(_) => 1
    case GaussianBlur(_) => 1
    case ConvertGray => 2
    case Invert => 3
    case MedianFilter(_) => 4
    case Resize(_, _) => 5
    case UnsharpMask(_, _, _) => 6
  }

  /** max(2, 400 // max(w, h)): at least 2; for a longer side of at most 200
      it brings that side up to at most 400 and to more than 400 minus one
      side length, otherwise it doubles. */
  function SmartScaleFactor(w: nat, h: nat): (f: nat)
    requires w > 0 || h > 0
    ensures f >= 2
    ensures Max(w, h) <= 200 ==> 400 - Max(w, h) < Max(w, h) * f <= 400
    ensures Max(w, h) > 200 ==> f == 2
  {
    var m := Max(w, h);
    var q := 400 / m;
    FloorDivision(400, m);
    if m <= 200 then
      assert q >= 2 by {
        if q < 2 { MulAtMost(m, q, 1); }
      }
      q
    else
      assert q < 2 by {
        if q >= 2 { MulAtMost(m, 2, q); }
      }
      2
  }

  /** n // m is the largest q with m * q <= n. */
  lemma FloorDivision(n: nat, m: nat)
    requires m > 0
    ensures m * (n / m) <= n < m * (n / m) + m
  {
  }

  /** Multiplication by a natural number is monotonic. */
  lemma MulAtMost(a: nat, b: nat, c: nat)
    requires b <= c
    ensures a * b <= a * c
  {
  }

  /** The upscaling step: it fires when w < 300 or h < 100; an empty image
      (0 x 0) makes the division raise. */
  function SmartResize(w: nat, h: nat): (r: SmartOutcome)
    ensures r.DivisionByZero? <==> w == 0 && h == 0
    ensures r.Planned? ==> r.plan.steps == Opt(w < 300 || h < 100, Resize(r.plan.width, r.plan.height))
  {
    if w < 300 || h < 100 then
      if w == 0 && h == 0 then DivisionByZero
      else
        var f := SmartScaleFactor(w, h);
        Planned(Plan([Resize(w * f, h * f)], w * f, h * f))
    else Planned(Plan([], w, h))
  }

  /** The upscaled size: both sides multiplied by the same factor of at least
      2, so strictly larger and in the same aspect ratio; unchanged when no
      upscaling happens. */
  lemma SmartResizeSize(w: nat, h: nat) returns (f: nat)
    requires w > 0 || h > 0
    ensures var p := SmartResize(w, h).plan;
            && (w < 300 || h < 100 ==> f == SmartScaleFactor(w, h))
            && (!(w < 300 || h < 100) ==> f == 1)
            && p.width == w * f && p.height == h * f
            && p.width * h == p.height * w
  {
    f := if w < 300 || h < 100 then SmartScaleFactor(w, h) else 1;
    assert (w * f) * h == (h * f) * w;
  }

  /** The transforms smart_preprocess_image applies before the upscaling step. */
  function SmartFront(mode: Mode, stats: Stats): seq<Transform> {
    var low, high := stats.contrast < 30.0, stats.contrast > 80.0;
    Opt(mode != Rgb, ConvertRgb)
    + Opt(low || high, if low then EnhanceContrast(15) else GaussianBlur(5))
    + [ConvertGray]
    + Opt(stats.brightness < 100.0, Invert)
    + Opt(stats.contrast > 60.0, MedianFilter(3))
  }

  /** The conversions and the contrast branch are ranked below the inversion stage. */
  lemma SmartHeadRanked(mode: Mode, low: bool, high: bool)
    ensures Ranked(Opt(mode != Rgb, ConvertRgb) + Opt(low || high, if low then EnhanceContrast(15) else GaussianBlur(5))
                   + [ConvertGray], SmartStage, 0, 3)
  {
    RankedOpt(mode != Rgb, ConvertRgb, SmartStage);
    RankedOpt(low || high, if low then EnhanceContrast(15) else GaussianBlur(5), SmartStage);
    RankedOpt(true, ConvertGray, SmartStage);
    RankedThree(Opt(mode != Rgb, ConvertRgb), Opt(low || high, if low then EnhanceContrast(15) else GaussianBlur(5)),
                [ConvertGray], SmartStage, 1, 2, 3);
  }

  /** The steps before the upscaling run in stage order, below the upscaling's stage. */
  lemma SmartFrontRanked(mode: Mode, stats: Stats)
    ensures Ranked(SmartFront(mode, stats), SmartStage, 0, 5)
  {
    var low, high := stats.contrast < 30.0, stats.contrast > 80.0;
    var a := Opt(mode != Rgb, ConvertRgb);
    var b := Opt(low || high, if low then EnhanceContrast(15) else GaussianBlur(5));
    var c := Opt(stats.brightness < 100.0, Invert);
    var d := Opt(stats.contrast > 60.0, MedianFilter(3));
    SmartHeadRanked(mode, low, high);
    RankedOpt(stats.brightness < 100.0, Invert, SmartStage);
    RankedOpt(stats.contrast > 60.0, MedianFilter(3), SmartStage);
    RankedThree(a + b + [ConvertGray], c, d, SmartStage, 3, 4, 5);
  }

  /** RGB conversion exactly for a non-RGB image, grey conversion always,
      inversion exactly below brightness 100, the median filter exactly above
      contrast 60. */
  lemma SmartFrontChoices(mode: Mode, stats: Stats)
    ensures var s := SmartFront(mode, stats);
            && (ConvertRgb in s <==> mode != Rgb)
            && ConvertGray in s
            && (Invert in s <==> stats.brightness < 100.0)
            && (MedianFilter(3) in s <==> stats.contrast > 60.0)
  {
    var low, high := stats.contrast < 30.0, stats.contrast > 80.0;
    var a := Opt(mode != Rgb, ConvertRgb);
    var b := Opt(low || high, if low then EnhanceContrast(15) else GaussianBlur(5));
    var c := Opt(stats.brightness < 100.0, Invert);
    var d := Opt(stats.contrast > 60.0, MedianFilter(3));
    assert SmartFront(mode, stats) == a + b + [ConvertGray] + c + d;
    assert forall x :: x in a + b + [ConvertGray] + c + d <==> x in a || x in b || x == ConvertGray || x in c || x in d;
  }

  /** Contrast enhancement exactly below contrast 30, smoothing exactly above 80. */
  lemma SmartFrontContrast(mode: Mode, stats: Stats)
    ensures var s := SmartFront(mode, stats);
            && (EnhanceContrast(15) in s <==> stats.contrast < 30.0)
            && (GaussianBlur(5) in s <==> stats.contrast > 80.0)
  {
    var low, high := stats.contrast < 30.0, stats.contrast > 80.0;
    var a := Opt(mode != Rgb, ConvertRgb);
    var b := Opt(low || high, if low then EnhanceContrast(15) else GaussianBlur(5));
    var c := Opt(stats.brightness < 100.0, Invert);
    var d := Opt(stats.contrast > 60.0, MedianFilter(3));
    assert SmartFront(mode, stats) == a + b + [ConvertGray] + c + d;
    assert forall x :: x in a + b + [ConvertGray] + c + d <==> x in a || x in b || x == ConvertGray || x in c || x in d;
    assert EnhanceContrast(15) in b <==> low;
    assert GaussianBlur(5) in b <==> high;
  }

  /** No upscaling happens before the upscaling step. */
  lemma SmartFrontKinds(mode: Mode, stats: Stats)
    ensures var s := SmartFront(mode, stats);
            forall i :: 0 <= i < |s| ==> !s[i].Resize?
  {
    SmartFrontRanked(mode, stats);
  }

  /** The transforms smart_preprocess_image applies and the size it produces;
      an empty image makes the scale-factor division raise. */
  function SmartPlan(mode: Mode, stats: Stats, w: nat, h: nat): (r: SmartOutcome)
    ensures r.DivisionByZero? <==> w == 0 && h == 0
  {
    match SmartResize(w, h)
    case DivisionByZero => DivisionByZero
    case Planned(up) =>
      Planned(Plan(SmartFront(mode, stats) + up.steps + [UnsharpMask(1, 120, 3)], up.width, up.height))
  }

  /** The transforms run in the order the function applies them, each at most
      once, and the sharpening comes last. */
  lemma SmartPlanOrder(mode: Mode, stats: Stats, w: nat, h: nat)
    requires w > 0 || h > 0
    ensures var p := SmartPlan(mode, stats, w, h).plan;
            && InStageOrder(p.steps, SmartStage)
            && |p.steps| > 0 && p.steps[|p.steps| - 1] == UnsharpMask(1, 120, 3)
  {
    var up := SmartResize(w, h).plan;
    SmartStepsRanked(mode, stats, w < 300 || h < 100, up.width, up.height);
  }

  /** The smart steps, whatever the upscaling decision, are ranked. */
  lemma SmartStepsRanked(mode: Mode, stats: Stats, resize: bool, width: nat, height: nat)
    ensures Ranked(SmartFront(mode, stats) + Opt(resize, Resize(width, height)) + [UnsharpMask(1, 120, 3)],
                   SmartStage, 0, 7)
  {
    SmartFrontRanked(mode, stats);
    RankedOpt(resize, Resize(width, height), SmartStage);
    RankedOpt(true, UnsharpMask(1, 120, 3), SmartStage);
    RankedThree(SmartFront(mode, stats), Opt(resize, Resize(width, height)), [UnsharpMask(1, 120, 3)],
                SmartStage, 5, 6, 7);
  }

  /** Which transforms run: RGB conversion exactly for a non-RGB image,
      contrast enhancement exactly below contrast 30 and smoothing exactly
      above 80 (never both), grey conversion always, inversion exactly below
      brightness 100, the median filter exactly above contrast 60. */
  lemma SmartPlanChoices(mode: Mode, stats: Stats, w: nat, h: nat)
    requires w > 0 || h > 0
    ensures var p := SmartPlan(mode, stats, w, h).plan;
            && (ConvertRgb in p.steps <==> mode != Rgb)
            && ConvertGray in p.steps
            && (EnhanceContrast(15) in p.steps <==> stats.contrast < 30.0)
            && (GaussianBlur(5) in p.steps <==> stats.contrast > 80.0)
            && !(EnhanceContrast(15) in p.steps && GaussianBlur(5) in p.steps)
            && (Invert in p.steps <==> stats.brightness < 100.0)
            && (MedianFilter(3) in p.steps <==> stats.contrast > 60.0)
  {
    var up := SmartResize(w, h).plan;
    var tail := up.steps + [UnsharpMask(1, 120, 3)];
    assert SmartPlan(mode, stats, w, h).plan.steps == SmartFront(mode, stats) + tail;
    SmartChoicesBeforeTail(mode, stats, tail);
  }

  /** Appending only resizing and sharpening keeps the choices of the front. */
  lemma SmartChoicesBeforeTail(mode: Mode, stats: Stats, tail: seq<Transform>)
    requires forall y :: y in tail ==> y.Resize? || y.UnsharpMask?
    ensures var s := SmartFront(mode, stats) + tail;
            && (ConvertRgb in s <==> mode != Rgb)
            && ConvertGray in s
            && (EnhanceContrast(15) in s <==> stats.contrast < 30.0)
            && (GaussianBlur(5) in s <==> stats.contrast > 80.0)
            && !(EnhanceContrast(15) in s && GaussianBlur(5) in s)
            && (Invert in s <==> stats.brightness < 100.0)
            && (MedianFilter(3) in s <==> stats.contrast > 60.0)
  {
    var front := SmartFront(mode, stats);
    SmartFrontChoices(mode, stats);
    SmartFrontContrast(mode, stats);
    InFront(front, tail, ConvertRgb);
    InFront(front, tail, ConvertGray);
    InFront(front, tail, EnhanceContrast(15));
    InFront(front, tail, GaussianBlur(5));
    InFront(front, tail, Invert);
    InFront(front, tail, MedianFilter(3));
  }

  /** The upscaling runs exactly when w < 300 or h < 100. */
  lemma SmartPlanResizes(mode: Mode, stats: Stats, w: nat, h: nat)
    requires w > 0 || h > 0
    ensures Resizes(SmartPlan(mode, stats, w, h).plan.steps) <==> w < 300 || h < 100
  {
    var up := SmartResize(w, h).plan;
    var front := SmartFront(mode, stats);
    var steps := front + up.steps + [UnsharpMask(1, 120, 3)];
    assert SmartPlan(mode, stats, w, h).plan.steps == steps;
    SmartFrontKinds(mode, stats);
    if up.steps != [] {
      assert steps[|front|].Resize?;
    }
    assert forall i :: 0 <= i < |front| ==> steps[i] == front[i];
    assert forall i :: |front| <= i < |front + up.steps| ==> steps[i] == up.steps[i - |front|];
  }

  /** The size the smart plan produces: each side times max(2, 400 // max(w, h))
      when upscaling, so the longer side reaches at most 400 when it was at most
      200; each positive side grows; the size is unchanged otherwise. */
  lemma SmartPlanSize(mode: Mode, stats: Stats, w: nat, h: nat)
    requires w > 0 || h > 0
    ensures var p := SmartPlan(mode, stats, w, h).plan;
            && (w < 300 || h < 100 ==>
                  p.width == w * SmartScaleFactor(w, h) && p.height == h * SmartScaleFactor(w, h)
                  && (w > 0 ==> p.width > w) && (h > 0 ==> p.height > h)
                  && (Max(w, h) <= 200 ==> Max(p.width, p.height) <= 400))
            && (!(w < 300 || h < 100) ==> p.width == w && p.height == h)
  {
    var f := SmartResizeSize(w, h);
    if w < 300 || h < 100 {
      UpscaledSides(w, h, f);
    }
  }

  /** Scaling both sides by f >= 2 grows each positive side, and the longer
      side of the result is the longer side times f. */
  lemma UpscaledSides(w: nat, h: nat, f: nat)
    requires f >= 2
    ensures (w > 0 ==> w * f > w) && (h > 0 ==> h * f > h)
    ensures Max(w * f, h * f) == Max(w, h) * f
  {
    MulAtMost(w, 1, f);
    MulAtMost(h, 1, f);
    if w >= h {
      MulAtMost(f, h, w);
      assert f * h == h * f && f * w == w * f;
    } else {
      MulAtMost(f, w, h);
      assert f * h == h * f && f * w == w * f;
    }
  }

  /** smart_preprocess_image: True and the processed picture when every call
      succeeds. Otherwise False: the file is damaged when the final save raised,
      and unchanged when the division or an earlier call raised. */
  function SmartPreprocessImage(pic: Picture, mode: Mode, stats: Stats, fault: Fault): (r: Preprocessed)
    ensures r.ok ==> SmartPlan(mode, stats, pic.width, pic.height).Planned?
                     && r.file == File(Apply(pic, SmartPlan(mode, stats, pic.width, pic.height).plan))
                     && r.file.picture != pic
    ensures r.file == File(pic) <==>
              !r.ok && !(SmartPlan(mode, stats, pic.width, pic.height).Planned?
                         && SaveFails(fault, |SmartPlan(mode, stats, pic.width, pic.height).plan.steps|))
    ensures r.file == Damaged <==>
              SmartPlan(mode, stats, pic.width, pic.height).Planned?
              && SaveFails(fault, |SmartPlan(mode, stats, pic.width, pic.height).plan.steps|)
    ensures fault == NoFault ==> (r.ok <==> pic.width > 0 || pic.height > 0)
    ensures r.ok <==> SmartPlan(mode, stats, pic.width, pic.height).Planned?
                      && Completes(fault, |SmartPlan(mode, stats, pic.width, pic.height).plan.steps|)
    ensures SmartPlan(mode, stats, pic.width, pic.height).Planned? ==>
              r == Run(pic, SmartPlan(mode, stats, pic.width, pic.height).plan, fault)
  {
    match SmartPlan(mode, stats, pic.width, pic.height)
    case DivisionByZero => Preprocessed(false, File(pic))
    case Planned(plan) =>
      assert |Apply(pic, plan).history| > |pic.history|;
      Run(pic, plan, fault)
  }

  // ---------------------------------------------------------------------------
  // enhance_image_for_ocr (enhanced script)

  /** The order in which enhance_image_for_ocr applies its transforms. */
  function EnhanceStage(t: Transform): nat {
    match t
    case ConvertGray => 0
    case Resize(_, _) => 1
    case MedianFilter(_) => 2
    case EnhanceContrast(_) => 3
    case UnsharpMask(_, _, _) => 4
    case _ => 5
  }

  /** The upscaling step: it fires when w < 400 or h < 200, doubling when
      min(w, h) < 200 and otherwise multiplying by 1.5 and truncating. */
  function EnhanceResize(w: nat, h: nat): (p: Plan)
    ensures p.steps == Opt(w < 400 || h < 200, Resize(p.width, p.height))
    ensures p.width >= w && p.height >= h
    ensures p.steps == [] ==> p.width == w && p.height == h
    ensures p.steps != [] && w > 0 && h > 0 ==> p.width > w && p.height > h
    ensures p.steps != [] && Min(w, h) < 200 ==> p.width == 2 * w && p.height == 2 * h
    ensures p.steps != [] && Min(w, h) >= 200 ==>
              2 * p.width <= 3 * w < 2 * p.width + 2 && 2 * p.height <= 3 * h < 2 * p.height + 2
  {
    if w < 400 || h < 200 then
      if Min(w, h) < 200 then Plan([Resize(2 * w, 2 * h)], 2 * w, 2 * h)
      else Plan([Resize((3 * w) / 2, (3 * h) / 2)], (3 * w) / 2, (3 * h) / 2)
    else Plan([], w, h)
  }

  /** The aspect ratio survives the upscaling up to the truncation:
      w' * h and h' * w differ by at most half the longer side, and are equal
      when the factor is 2. */
  lemma EnhanceResizeAspect(w: nat, h: nat)
    ensures var p := EnhanceResize(w, h);
            && 2 * (p.width * h) <= 2 * (p.height * w) + Max(w, h)
            && 2 * (p.height * w) <= 2 * (p.width * h) + Max(w, h)
            && (Min(w, h) < 200 ==> p.width * h == p.height * w)
  {
    var p := EnhanceResize(w, h);
    if p.steps == [] {
    } else if Min(w, h) < 200 {
      assert (2 * w) * h == (2 * h) * w;
    } else {
      AspectAfterTruncation(w, h);
    }
  }

  /** Truncating 1.5 times each side moves w' * h - h' * w by at most half the longer side. */
  lemma AspectAfterTruncation(w: nat, h: nat)
    ensures 2 * (((3 * w) / 2) * h) <= 2 * (((3 * h) / 2) * w) + Max(w, h)
    ensures 2 * (((3 * h) / 2) * w) <= 2 * (((3 * w) / 2) * h) + Max(w, h)
  {
    TwiceTruncated(w, h);
    TwiceTruncated(h, w);
    assert w * h == h * w;
  }

  /** 2 * ((3 * x) // 2) * y lies between 3xy - y and 3xy. */
  lemma TwiceTruncated(x: nat, y: nat)
    ensures 3 * (x * y) - y <= 2 * (((3 * x) / 2) * y) <= 3 * (x * y)
  {
    var a := (3 * x) / 2;
    assert 2 * (a * y) == (2 * a) * y;
    if 3 * x == 2 * a {
      assert (2 * a) * y == (3 * x) * y == 3 * (x * y);
    } else {
      assert 2 * a == 3 * x - 1;
      assert (2 * a) * y == (3 * x - 1) * y == 3 * (x * y) - y;
    }
  }

  /** The transforms enhance_image_for_ocr applies and the size it produces.
      `filteredContrast` is the grey-level deviation measured after the median
      filter and the resize, the only statistic this variant uses. */
  function EnhancedPlan(mode: Mode, w: nat, h: nat, filteredContrast: real): Plan {
    var up := EnhanceResize(w, h);
    var steps :=
      Opt(mode != Luminance, ConvertGray)
      + up.steps
      + [MedianFilter(3)]
      + Opt(filteredContrast < 40.0, EnhanceContrast(13))
      + [UnsharpMask(1, 100, 3)];
    Plan(steps, up.width, up.height)
  }

  /** The transforms run in the order the function applies them, each at most
      once, and the sharpening comes last. */
  lemma EnhancedPlanOrder(mode: Mode, w: nat, h: nat, filteredContrast: real)
    ensures var p := EnhancedPlan(mode, w, h, filteredContrast);
            && InStageOrder(p.steps, EnhanceStage)
            && |p.steps| > 0 && p.steps[|p.steps| - 1] == UnsharpMask(1, 100, 3)
  {
    var up := EnhanceResize(w, h);
    EnhancedStepsRanked(mode, w < 400 || h < 200, up.width, up.height, filteredContrast);
  }

  /** The enhanced steps, whatever the upscaling decision, are ranked. */
  lemma EnhancedStepsRanked(mode: Mode, resize: bool, width: nat, height: nat, filteredContrast: real)
    ensures Ranked(Opt(mode != Luminance, ConvertGray) + Opt(resize, Resize(width, height)) + [MedianFilter(3)]
                   + Opt(filteredContrast < 40.0, EnhanceContrast(13)) + [UnsharpMask(1, 100, 3)], EnhanceStage, 0, 5)
  {
    var gray := Opt(mode != Luminance, ConvertGray);
    var up := Opt(resize, Resize(width, height));
    var contrast := Opt(filteredContrast < 40.0, EnhanceContrast(13));
    EnhancedHeadRanked(mode, resize, width, height);
    RankedOpt(filteredContrast < 40.0, EnhanceContrast(13), EnhanceStage);
    RankedOpt(true, UnsharpMask(1, 100, 3), EnhanceStage);
    RankedThree(gray + up + [MedianFilter(3)], contrast, [UnsharpMask(1, 100, 3)], EnhanceStage, 3, 4, 5);
  }

  /** The steps up to the median filter are ranked below the contrast stage. */
  lemma EnhancedHeadRanked(mode: Mode, resize: bool, width: nat, height: nat)
    ensures Ranked(Opt(mode != Luminance, ConvertGray) + Opt(resize, Resize(width, height)) + [MedianFilter(3)],
                   EnhanceStage, 0, 3)
  {
    RankedOpt(mode != Luminance, ConvertGray, EnhanceStage);
    RankedOpt(resize, Resize(width, height), EnhanceStage);
    RankedOpt(true, MedianFilter(3), EnhanceStage);
    RankedThree(Opt(mode != Luminance, ConvertGray), Opt(resize, Resize(width, height)), [MedianFilter(3)],
                EnhanceStage, 1, 2, 3);
  }

  /** Which transforms run: grey conversion exactly for an image not already
      grey, the median filter always, contrast enhancement exactly below a
      filtered contrast of 40. */
  lemma EnhancedPlanChoices(mode: Mode, w: nat, h: nat, filteredContrast: real)
    ensures var p := EnhancedPlan(mode, w, h, filteredContrast);
            && (ConvertGray in p.steps <==> mode != Luminance)
            && MedianFilter(3) in p.steps
            && (EnhanceContrast(13) in p.steps <==> filteredContrast < 40.0)
  {
    var up := EnhanceResize(w, h);
    var gray := Opt(mode != Luminance, ConvertGray);
    var contrast := Opt(filteredContrast < 40.0, EnhanceContrast(13));
    var steps := gray + up.steps + [MedianFilter(3)] + contrast + [UnsharpMask(1, 100, 3)];
    assert EnhancedPlan(mode, w, h, filteredContrast).steps == steps;
    assert forall x :: x in steps <==> x in gray || x in up.steps || x == MedianFilter(3) || x in contrast || x == UnsharpMask(1, 100, 3);
  }

  /** The upscaling runs exactly when w < 400 or h < 200; the image never
      shrinks, grows strictly on both sides when upscaled from a positive size,
      and keeps its size otherwise. */
  lemma EnhancedPlanSize(mode: Mode, w: nat, h: nat, filteredContrast: real)
    ensures var p := EnhancedPlan(mode, w, h, filteredContrast);
            && (Resizes(p.steps) <==> w < 400 || h < 200)
            && p.width >= w && p.height >= h
            && (Resizes(p.steps) && w > 0 && h > 0 ==> p.width > w && p.height > h)
            && (!Resizes(p.steps) ==> p.width == w && p.height == h)
            && (Resizes(p.steps) && Min(w, h) < 200 ==> p.width == 2 * w && p.height == 2 * h)
            && (Resizes(p.steps) && Min(w, h) >= 200 ==>
                  2 * p.width <= 3 * w < 2 * p.width + 2 && 2 * p.height <= 3 * h < 2 * p.height + 2)
  {
    var up := EnhanceResize(w, h);
    var gray := Opt(mode != Luminance, ConvertGray);
    var contrast := Opt(filteredContrast < 40.0, EnhanceContrast(13));
    var steps := gray + up.steps + [MedianFilter(3)] + contrast + [UnsharpMask(1, 100, 3)];
    assert EnhancedPlan(mode, w, h, filteredContrast).steps == steps;
    if up.steps != [] {
      assert steps[|gray|].Resize?;
    }
    assert forall i :: 0 <= i < |steps| && steps[i].Resize? ==> steps[i] in up.steps;
  }

  /** enhance_image_for_ocr: True and the processed picture when every call
      succeeds. Otherwise False: the file is damaged when the final save raised,
      and unchanged when an earlier call raised. */
  function EnhanceImageForOcr(pic: Picture, mode: Mode, filteredContrast: real, fault: Fault): (r: Preprocessed)
    ensures r.ok ==> r.file == File(Apply(pic, EnhancedPlan(mode, pic.width, pic.height, filteredContrast)))
                     && r.file.picture != pic
    ensures r.file == File(pic) <==>
              !r.ok && !SaveFails(fault, |EnhancedPlan(mode, pic.width, pic.height, filteredContrast).steps|)
    ensures r.file == Damaged <==>
              SaveFails(fault, |EnhancedPlan(mode, pic.width, pic.height, filteredContrast).steps|)
    ensures fault == NoFault ==> r.ok
    ensures r.ok <==> Completes(fault, |EnhancedPlan(mode, pic.width, pic.height, filteredContrast).steps|)
    ensures r == Run(pic, EnhancedPlan(mode, pic.width, pic.height, filteredContrast), fault)
  {
    var plan := EnhancedPlan(mode, pic.width, pic.height, filteredContrast);
    assert |Apply(pic, plan).history| > |pic.history|;
    Run(pic, plan, fault)
  }
}
