/** Frames in linear light, and their means. Reals stand for 32-bit floats. */
module Frames {
  import opened Common

  const N: nat := 2048

  datatype Rgb = Rgb(r: real, g: real, b: real)

  const BLACK: Rgb := Rgb(0.0, 0.0, 0.0)

  function Dim(v: real, k: real): real {
    v * k
  }

  function Scaled(c: Rgb, k: real): Rgb {
    Rgb(Dim(c.r, k), Dim(c.g, k), Dim(c.b, k))
  }

  function Clamp(v: real): (r: real)
    ensures 0.0 <= r <= 1.0
  {
    if v < 0.0 then 0.0 else if v > 1.0 then 1.0 else v
  }

  function Clamp01(c: Rgb): Rgb {
    Rgb(Clamp(c.r), Clamp(c.g), Clamp(c.b))
  }

  function Duty(c: Rgb): real {
    (c.r + c.g + c.b) / 3.0
  }

  function Luma(c: Rgb): real {
    0.2126 * c.r + 0.7152 * c.g + 0.0722 * c.b
  }

  /** A number of a colour is one byte. */
  type Index = i: nat | i < 256

  const MAX_PALETTE: nat := 256

  /** A picture's colours: one to a pixel, or a palette and a number for each pixel. */
  datatype Frame = Linear(px: seq<Rgb>) | Indexed(palette: seq<Rgb>, indices: seq<Index>)

  predicate Whole(f: Frame) {
    match f
    case Linear(px) => |px| == 64 * 32
    case Indexed(_, indices) => |indices| == 64 * 32
  }

  /** An index past the end of the palette is black. */
  function Pixel(f: Frame, i: nat): Rgb
    requires Whole(f) && i < N
  {
    match f
    case Linear(px) => px[i]
    case Indexed(palette, indices) => if indices[i] < |palette| then palette[indices[i]] else BLACK
  }

  function Colours(f: Frame): seq<Rgb> {
    match f
    case Linear(px) => px
    case Indexed(palette, _) => palette
  }

  function WithColours(f: Frame, cs: seq<Rgb>): Frame
  {
    match f
    case Linear(_) => Linear(cs)
    case Indexed(_, indices) => Indexed(cs, indices)
  }

  /** Every colour times `k`; of an indexed frame, only the palette changes. */
  function ScaledFrame(f: Frame, k: real): (g: Frame)
    requires Whole(f)
    ensures Whole(g)
  {
    WithColours(f, seq(|Colours(f)|, i requires 0 <= i < |Colours(f)| => Scaled(Colours(f)[i], k)))
  }

  /** Scaling the palette scales the picture. */
  lemma ScaledPixels(f: Frame, k: real, i: nat)
    requires Whole(f) && i < N
    ensures Pixel(ScaledFrame(f, k), i) == Scaled(Pixel(f, i), k)
  {
    assert Scaled(BLACK, k) == BLACK;
  }

  /** A palette without the colours that no number can name. */
  function Truncated(f: Frame): (g: Frame)
    requires Whole(f)
    ensures Whole(g) && (g.Indexed? ==> |g.palette| <= 256)
  {
    match f
    case Linear(_) => f
    case Indexed(palette, indices) => if |palette| <= MAX_PALETTE then f else Indexed(palette[..MAX_PALETTE], indices)
  }

  // -------------------------------------------------------------------------
  // Means
  // -------------------------------------------------------------------------

  datatype Means = Means(duty: real, luma: real, red: real)

  const ZERO: Means := Means(0.0, 0.0, 0.0)

  function Of(c: Rgb): Means {
    Means(Duty(c), Luma(c), c.r)
  }

  function Plus(a: Means, b: Means): Means {
    Means(a.duty + b.duty, a.luma + b.luma, a.red + b.red)
  }

  function Times(m: Means, k: real): Means {
    Means(Dim(m.duty, k), Dim(m.luma, k), Dim(m.red, k))
  }

  /** The sum over the first `n` pixels, each clamped. */
  function Sum(f: Frame, n: nat): Means
    requires Whole(f) && n <= N
  {
    if n == 0 then ZERO else Plus(Sum(f, n - 1), Of(Clamp01(Pixel(f, n - 1))))
  }

  function MeansOf(f: Frame): Means
    requires Whole(f)
  {
    Times(Sum(f, N), 1.0 / N as real)
  }

  /** A palette and numbers are the same picture as the colours they stand for: past the palette's end that is black. */
  lemma {:induction false} IndexedIsItsColours(palette: seq<Rgb>, indices: seq<Index>, px: seq<Rgb>, n: nat)
    requires |indices| == |px| == 64 * 32 && n <= 64 * 32
    requires
      forall i :: 0 <= i < 64 * 32 ==>
        px[i] == if indices[i] < |palette| then palette[indices[i]] else Rgb(0.0, 0.0, 0.0)
    ensures Sum(Indexed(palette, indices), n) == Sum(Linear(px), n)
    ensures n == 64 * 32 ==> MeansOf(Indexed(palette, indices)) == MeansOf(Linear(px))
  {
    hide Of, Clamp01;
    if n != 0 {
      IndexedIsItsColours(palette, indices, px, n - 1);
    }
  }

  /** Truncating a palette changes no picture. */
  lemma {:induction false} TruncatedLooksTheSame(f: Frame, n: nat)
    requires Whole(f) && n <= N
    ensures forall i: nat :: i < n ==> Pixel(Truncated(f), i) == Pixel(f, i)
    ensures Sum(Truncated(f), n) == Sum(f, n)
  {
    hide Of, Clamp01;
    if n != 0 {
      TruncatedLooksTheSame(f, n - 1);
    }
  }

  predicate Fractions(m: Means) {
    0.0 <= m.duty <= 1.0 && 0.0 <= m.luma <= 1.0 && 0.0 <= m.red <= 1.0
  }

  lemma OfIsFractions(c: Rgb)
    ensures Fractions(Of(Clamp01(c)))
  {
  }

  lemma {:induction false} SumIsBounded(f: Frame, n: nat)
    requires Whole(f) && n <= N
    ensures
      var m := Sum(f, n);
      0.0 <= m.duty <= n as real && 0.0 <= m.luma <= n as real && 0.0 <= m.red <= n as real
  {
    hide Duty, Luma, Clamp01, Pixel;
    if n != 0 {
      SumIsBounded(f, n - 1);
      OfIsFractions(Pixel(f, n - 1));
    }
  }

  lemma MeansAreFractions(f: Frame)
    requires Whole(f)
    ensures Fractions(MeansOf(f))
  {
    hide Sum;
    SumIsBounded(f, N);
  }

  // -------------------------------------------------------------------------
  // Scaling and the means
  // -------------------------------------------------------------------------

  predicate AtMostOne(c: Rgb) {
    c.r <= 1.0 && c.g <= 1.0 && c.b <= 1.0
  }

  /** What scaling a clamped value down gives, and what clamping a scaled one gives. */
  lemma ClampAndScale(v: real, k: real)
    requires 0.0 < k < 1.0
    ensures Clamp(Dim(v, k)) >= Dim(Clamp(v), k)
    ensures Clamp(Dim(v, k)) == Dim(Clamp(v), k) <==> v <= 1.0
  {
    if v < 0.0 {
      assert v * k < 0.0;
    } else if v <= 1.0 {
      assert 0.0 <= v * k <= 1.0;
    } else {
      assert v * k > k;
    }
  }

  predicate AtLeast(a: Means, b: Means) {
    a.duty >= b.duty && a.luma >= b.luma && a.red >= b.red
  }

  lemma Brighter(c: Rgb, d: Rgb)
    requires c.r >= d.r && c.g >= d.g && c.b >= d.b
    ensures AtLeast(Of(c), Of(d)) && (Of(c) == Of(d) <==> c == d)
  {
  }

  lemma OfScaled(c: Rgb, k: real)
    ensures Of(Scaled(c, k)) == Times(Of(c), k)
  {
  }

  lemma ClampPixel(c: Rgb, k: real)
    requires 0.0 < k < 1.0
    ensures
      var x, y := Clamp01(Scaled(c, k)), Scaled(Clamp01(c), k);
      x.r >= y.r && x.g >= y.g && x.b >= y.b && (x == y <==> AtMostOne(c))
  {
    hide Clamp, Dim;
    ClampAndScale(c.r, k);
    ClampAndScale(c.g, k);
    ClampAndScale(c.b, k);
  }

  lemma PixelAndScale(c: Rgb, k: real)
    requires 0.0 < k < 1.0
    ensures AtLeast(Of(Clamp01(Scaled(c, k))), Times(Of(Clamp01(c)), k))
    ensures Of(Clamp01(Scaled(c, k))) == Times(Of(Clamp01(c)), k) <==> AtMostOne(c)
  {
    hide Clamp01, Scaled, Of, Times, AtMostOne;
    ClampPixel(c, k);
    OfScaled(Clamp01(c), k);
    Brighter(Clamp01(Scaled(c, k)), Scaled(Clamp01(c), k));
  }

  lemma {:induction false} SumAndScale(f: Frame, k: real, n: nat)
    requires Whole(f) && n <= N && 0.0 < k < 1.0
    ensures AtLeast(Sum(ScaledFrame(f, k), n), Times(Sum(f, n), k))
    ensures
      Sum(ScaledFrame(f, k), n) == Times(Sum(f, n), k)
      <==> forall i: nat :: i < n ==> AtMostOne(Pixel(f, i))
  {
    hide Of, Clamp01, Scaled, ScaledFrame, AtMostOne, Pixel;
    if n != 0 {
      SumAndScale(f, k, n - 1);
      ScaledPixels(f, k, n - 1);
      PixelAndScale(Pixel(f, n - 1), k);
      Distribute(Sum(f, n - 1), Of(Clamp01(Pixel(f, n - 1))), k);
    }
  }

  lemma Distribute(a: Means, b: Means, k: real)
    ensures Times(Plus(a, b), k) == Plus(Times(a, k), Times(b, k))
  {
  }

  lemma TimesSwap(m: Means, j: real, k: real)
    ensures Times(Times(m, j), k) == Times(Times(m, k), j)
  {
  }

  /** The means of a frame that has been dimmed are the dimmed means exactly when no channel of any pixel
      was over one; otherwise clamping before and clamping after are not the same. */
  lemma ScaledMeansExactlyWhen(f: Frame, k: real)
    requires Whole(f) && 0.0 < k < 1.0
    ensures MeansOf(ScaledFrame(f, k)) == Times(MeansOf(f), k) <==> forall i: nat :: i < 64 * 32 ==> AtMostOne(Pixel(f, i))
  {
    hide Sum, ScaledFrame, AtMostOne, Pixel;
    SumAndScale(f, k, N);
    TimesSwap(Sum(f, N), 1.0 / N as real, k);
    SameTimes(Sum(ScaledFrame(f, k), N), Times(Sum(f, N), k), 1.0 / N as real);
  }

  lemma SameTimes(a: Means, b: Means, k: real)
    requires k != 0.0
    ensures Times(a, k) == Times(b, k) <==> a == b
  {
    assert a.duty * k == b.duty * k <==> (a.duty - b.duty) * k == 0.0;
    assert a.luma * k == b.luma * k <==> (a.luma - b.luma) * k == 0.0;
    assert a.red * k == b.red * k <==> (a.red - b.red) * k == 0.0;
  }

  /** What a channel over one keeps of its light, beyond its share, when it is scaled and only then clamped. */
  function Over(v: real, k: real): real {
    if v > 1.0 then Clamp(Dim(v, k)) - k else 0.0
  }

  function OverDuty(c: Rgb, k: real): real {
    (Over(c.r, k) + Over(c.g, k) + Over(c.b, k)) / 3.0
  }

  function OverSum(f: Frame, k: real, n: nat): real
    requires Whole(f) && n <= N
  {
    if n == 0 then 0.0 else OverSum(f, k, n - 1) + OverDuty(Pixel(f, n - 1), k)
  }

  /** The mean of that over the frame. */
  function Spill(f: Frame, k: real): real
    requires Whole(f)
  {
    OverSum(f, k, N) / N as real
  }

  lemma ClampScaledIs(v: real, k: real)
    requires 0.0 <= k < 1.0
    ensures Clamp(Dim(v, k)) == Dim(Clamp(v), k) + Over(v, k)
    ensures Over(v, k) >= 0.0 && (Over(v, k) == 0.0 <==> v <= 1.0 || k == 0.0)
  {
    if v < 0.0 {
      assert v * k <= 0.0;
    } else if v <= 1.0 {
      assert 0.0 <= v * k <= 1.0;
    } else {
      assert k > 0.0 ==> v * k > k;
    }
  }

  lemma PixelSpills(c: Rgb, k: real)
    requires 0.0 <= k < 1.0
    ensures Duty(Clamp01(Scaled(c, k))) == Dim(Duty(Clamp01(c)), k) + OverDuty(c, k)
    ensures OverDuty(c, k) >= 0.0 && (OverDuty(c, k) == 0.0 <==> AtMostOne(c) || k == 0.0)
  {
    hide Clamp, Over;
    ClampScaledIs(c.r, k);
    ClampScaledIs(c.g, k);
    ClampScaledIs(c.b, k);
  }

  lemma {:induction false} SumSpills(f: Frame, k: real, n: nat)
    requires Whole(f) && n <= N && 0.0 <= k < 1.0
    ensures Sum(ScaledFrame(f, k), n).duty == Dim(Sum(f, n).duty, k) + OverSum(f, k, n)
    ensures OverSum(f, k, n) >= 0.0
    ensures OverSum(f, k, n) == 0.0 <==> k == 0.0 || forall i: nat :: i < n ==> AtMostOne(Pixel(f, i))
  {
    hide Clamp01, Scaled, ScaledFrame, AtMostOne, Pixel, Duty, OverDuty;
    if n != 0 {
      SumSpills(f, k, n - 1);
      ScaledPixels(f, k, n - 1);
      PixelSpills(Pixel(f, n - 1), k);
    }
  }

  /** The duty of any frame that has been dimmed is the dimmed duty and what its channels over one keep, which is
      nothing exactly when there are none, or the frame was dimmed to black. */
  lemma ScaledDutySpills(f: Frame, k: real)
    requires Whole(f) && 0.0 <= k < 1.0
    ensures MeansOf(ScaledFrame(f, k)).duty == Dim(MeansOf(f).duty, k) + Spill(f, k)
    ensures Spill(f, k) >= 0.0
    ensures Spill(f, k) == 0.0 <==> k == 0.0 || forall i: nat :: i < N ==> AtMostOne(Pixel(f, i))
  {
    hide Sum, ScaledFrame, AtMostOne, Pixel, OverSum;
    SumSpills(f, k, N);
    Shares(Sum(f, N).duty, k, OverSum(f, k, N), 1.0 / N as real);
  }

  lemma Shares(a: real, k: real, b: real, j: real)
    ensures (a * k + b) * j == a * j * k + b * j
  {
  }

  // -------------------------------------------------------------------------
  // The code
  // -------------------------------------------------------------------------

  class Picture {
    var frame: Frame

    constructor (f: Frame)
      ensures frame == f
    {
      frame := f;
    }

    /** `Frame::scale`: every colour there is, in place. */
    method Scale(k: real)
      requires Whole(frame)
      modifies this
      ensures frame == ScaledFrame(old(frame), k)
    {
      var cs := Colours(frame);
      for i := 0 to |cs|
        invariant |cs| == |Colours(old(frame))|
        invariant forall j :: 0 <= j < |cs| ==>
          cs[j] == if j < i then Scaled(Colours(old(frame))[j], k) else Colours(old(frame))[j]
        invariant frame == WithColours(old(frame), cs)
      {
        cs := cs[i := Scaled(cs[i], k)];
        frame := WithColours(frame, cs);
      }
      assert cs == Colours(ScaledFrame(old(frame), k));
    }

    method Truncate()
      requires Whole(frame)
      modifies this
      ensures frame == Truncated(old(frame))
      ensures MeansOf(frame) == MeansOf(old(frame))
      ensures forall i: nat :: i < N ==> Pixel(frame, i) == Pixel(old(frame), i)
    {
      hide Sum, Pixel;
      TruncatedLooksTheSame(frame, N);
      if frame.Indexed? && |frame.palette| > MAX_PALETTE {
        frame := Indexed(frame.palette[..MAX_PALETTE], frame.indices);
      }
    }

    method MeansNow() returns (m: Means)
      requires Whole(frame)
      ensures m == MeansOf(frame)
    {
      hide Of, Clamp01, Plus, Pixel;
      m := ZERO;
      for i := 0 to N
        invariant m == Sum(frame, i)
      {
        m := Plus(m, Of(Clamp01(Pixel(frame, i))));
      }
      m := Times(m, 1.0 / N as real);
    }
  }
}
