/** The brightness safety stage: one gain for the whole frame, held under a power cap and a rise limit.

    Reals stand for 32-bit floats, and the exponential is a parameter of which only its range is used. */
module Limiter {
  import opened Common
  import opened Frames

  datatype Config = Config(enabled: bool, cap: real, maxRise: real)

  /** What the limiter remembers: its power gain, and the means of the last frame it let out. */
  datatype State = State(aplGain: real, prev: Means)

  datatype Limited = Limited(input: Means, output: Means, gain: real)

  /** What one frame does. `scaled` is whether the frame itself was dimmed. */
  datatype Result = Result(state: State, limited: Limited, scaled: bool)

  ghost predicate IsDecay(exp: real -> real) {
    forall x :: x < 0.0 ==> 0.0 < exp(x) < 1.0
  }

  /** The exponential is not the only one: this is one too. */
  lemma SomethingDecays()
    ensures exists exp :: IsDecay(exp)
  {
    var exp := (x: real) => if x < 0.0 then 1.0 / (1.0 - x) else 1.0;
    forall x: real | x < 0.0 ensures 0.0 < exp(x) < 1.0 {
      OneOver(1.0 - x);
    }
    assert IsDecay(exp);
  }

  lemma OneOver(d: real)
    requires d > 1.0
    ensures 0.0 < 1.0 / d < 1.0
  {
    var q := 1.0 / d;
    assert q * d == 1.0;
    assert q <= 0.0 ==> q * d <= 0.0;
    assert q >= 1.0 ==> q * d >= d;
  }

  function Fresh(): State {
    State(1.0, ZERO)
  }

  function Min(a: real, b: real): (m: real)
    ensures m <= a && m <= b && (m == a || m == b)
  {
    if a <= b then a else b
  }

  function Max(a: real, b: real): real {
    if a >= b then a else b
  }

  function ClampDt(dt: real): (r: real)
    ensures 1.0 / 120.0 <= r <= 0.1
  {
    if dt < 1.0 / 120.0 then 1.0 / 120.0 else if dt > 0.1 then 0.1 else dt
  }

  function Rise(cfg: Config, dt: real): (r: real)
    ensures r > 0.0
  {
    Max(cfg.maxRise, 0.05) * ClampDt(dt)
  }

  function Target(duty: real, cap: real): real
    requires cap >= 0.0
  {
    if duty > cap then cap / duty else 1.0
  }

  /** Down at once, up slowly. */
  function NextAplGain(was: real, target: real, k: real): real {
    if target < was then target else was + (target - was) * (1.0 - k)
  }

  /** No more gain than lets `now` be `before + rise`; `now` is what `apl` alone would give. */
  function Held(gain: real, apl: real, now: real, before: real, rise: real): real
    requires before >= 0.0 && rise > 0.0
  {
    if now > before + rise then Min(gain, Dim(apl, before + rise) / now) else gain
  }

  function Gain(input: Means, apl: real, prev: Means, rise: real): real
    requires prev.luma >= 0.0 && prev.red >= 0.0 && rise > 0.0
  {
    var held := Held(apl, apl, Dim(input.luma, apl), prev.luma, rise);
    Held(held, apl, Dim(input.red, apl), prev.red, rise)
  }

  predicate Sane(s: State) {
    0.0 <= s.aplGain <= 1.0 && s.prev.luma >= 0.0 && s.prev.red >= 0.0
  }

  function Step(s: State, cfg: Config, input: Means, dt: real, exp: real -> real): Result
    requires Sane(s) && cfg.cap >= 0.0
  {
    if !cfg.enabled then Result(State(1.0, input), Limited(input, input, 1.0), false)
    else
      var apl := NextAplGain(s.aplGain, Target(input.duty, cfg.cap), exp(-ClampDt(dt) / 0.5));
      var gain := Gain(input, apl, s.prev, Rise(cfg, dt));
      var output := Times(input, gain);
      Result(State(apl, output), Limited(input, output, gain), gain < 0.9999)
  }

  /** The limit is so much per second, and never less than 0.05; a frame counts for as long as it lasted, within a
      120th and a tenth of a second. */
  lemma RiseExactly(cfg: Config, dt: real)
    ensures
      var perSecond := if cfg.maxRise >= 0.05 then cfg.maxRise else 0.05;
      Rise(cfg, dt) ==
        if dt < 1.0 / 120.0 then perSecond * (1.0 / 120.0) else if dt > 0.1 then perSecond * 0.1 else perSecond * dt
    ensures cfg.maxRise >= 0.05 && 1.0 / 120.0 <= dt <= 0.1 ==> Rise(cfg, dt) == cfg.maxRise * dt
  {
  }

  // -------------------------------------------------------------------------
  // One frame
  // -------------------------------------------------------------------------

  lemma Part(c: real, d: real)
    requires 0.0 <= c < d
    ensures 0.0 <= c / d <= 1.0 && Dim(d, c / d) == c
  {
    var t := c / d;
    assert d * t == c;
    assert t < 0.0 ==> d * t < 0.0;
    assert t > 1.0 ==> d * t > d;
  }

  lemma WholePart(d: real)
    ensures Dim(d, 1.0) == d && Dim(d, 0.0) == 0.0
  {
  }

  lemma Monotone(a: real, x: real, y: real)
    requires a >= 0.0 && x <= y
    ensures Dim(a, x) <= Dim(a, y)
  {
  }

  lemma TargetIsSafe(duty: real, cap: real)
    requires 0.0 <= duty && cap >= 0.0
    ensures 0.0 <= Target(duty, cap) <= 1.0 && Dim(duty, Target(duty, cap)) <= cap
  {
    hide Dim;
    WholePart(duty);
    if duty > cap {
      Part(cap, duty);
    }
  }

  lemma AplBetween(was: real, target: real, k: real)
    requires 0.0 <= was <= 1.0 && 0.0 <= target <= 1.0 && 0.0 < k < 1.0
    ensures 0.0 <= NextAplGain(was, target, k) <= target
    ensures NextAplGain(was, target, k) >= Min(was, target)
  {
    if target >= was {
      PartOf(target - was, 1.0 - k);
    }
  }

  lemma PartOf(d: real, m: real)
    requires d >= 0.0 && 0.0 <= m <= 1.0
    ensures 0.0 <= d * m <= d
  {
  }

  lemma HeldIsSafe(gain: real, apl: real, x: real, before: real, rise: real)
    requires 0.0 <= gain <= apl && x >= 0.0 && before >= 0.0 && rise > 0.0
    ensures
      var g := Held(gain, apl, Dim(x, apl), before, rise);
      0.0 <= g <= gain && Dim(x, g) <= before + rise
  {
    hide Dim;
    var now, allowed := Dim(x, apl), before + rise;
    var g := Held(gain, apl, now, before, rise);
    if now > allowed {
      Quotient(apl, allowed, x);
      Monotone(x, g, Dim(apl, allowed) / now);
    } else {
      Monotone(x, gain, apl);
    }
  }

  lemma Quotient(apl: real, allowed: real, x: real)
    requires Dim(x, apl) > allowed > 0.0 && apl >= 0.0 && x >= 0.0
    ensures Dim(apl, allowed) / Dim(x, apl) >= 0.0 && Dim(x, Dim(apl, allowed) / Dim(x, apl)) == allowed
  {
    var now := x * apl;
    var q := apl * allowed / now;
    assert q * now == apl * allowed;
    assert apl > 0.0;
    Cancel(q * x, allowed, apl);
    assert q < 0.0 ==> q * now < 0.0;
    assert apl * allowed >= 0.0;
  }

  lemma Cancel(a: real, b: real, c: real)
    requires c > 0.0
    ensures a * c == b * c ==> a == b
  {
    if a * c == b * c {
      assert (a - b) * c == 0.0;
    }
  }

  /** The gains are in order, the power cap is kept, and neither the luminance nor the red rises by more
      than the limit. */
  lemma OneFrameIsSafe(s: State, cfg: Config, input: Means, dt: real, exp: real -> real)
    requires Sane(s) && cfg.enabled && cfg.cap >= 0.0 && Fractions(input) && IsDecay(exp)
    ensures
      var r := Step(s, cfg, input, dt, exp);
      && 0.0 <= r.limited.gain <= r.state.aplGain <= Target(input.duty, cfg.cap) <= 1.0
      && r.limited.output.duty <= cfg.cap
      && r.limited.output.luma <= s.prev.luma + Rise(cfg, dt)
      && r.limited.output.red <= s.prev.red + Rise(cfg, dt)
      && Sane(r.state)
  {
    hide Target, NextAplGain, Held, Rise, Dim;
    var target, k, rise := Target(input.duty, cfg.cap), exp(-ClampDt(dt) / 0.5), Rise(cfg, dt);
    TargetIsSafe(input.duty, cfg.cap);
    AplBetween(s.aplGain, target, k);
    var apl := NextAplGain(s.aplGain, target, k);
    var held := Held(apl, apl, Dim(input.luma, apl), s.prev.luma, rise);
    HeldIsSafe(apl, apl, input.luma, s.prev.luma, rise);
    HeldIsSafe(held, apl, input.red, s.prev.red, rise);
    var gain := Held(held, apl, Dim(input.red, apl), s.prev.red, rise);
    Monotone(input.luma, gain, held);
    Monotone(input.duty, gain, target);
    Monotone(input.luma, 0.0, gain);
    Monotone(input.red, 0.0, gain);
    WholePart(input.luma);
    WholePart(input.red);
  }

  /** The same on the configuration and the time themselves. */
  lemma OneFrameRises(s: State, cfg: Config, input: Means, dt: real, exp: real -> real)
    requires Sane(s) && cfg.enabled && cfg.cap >= 0.0 && Fractions(input) && IsDecay(exp)
    ensures
      var output := Step(s, cfg, input, dt, exp).limited.output;
      var perSecond := if cfg.maxRise >= 0.05 then cfg.maxRise else 0.05;
      var seconds := if dt < 1.0 / 120.0 then 1.0 / 120.0 else if dt > 0.1 then 0.1 else dt;
      && output.luma <= s.prev.luma + perSecond * seconds
      && output.red <= s.prev.red + perSecond * seconds
      && output.duty <= cfg.cap
  {
    hide Step, Rise;
    OneFrameIsSafe(s, cfg, input, dt, exp);
    RiseExactly(cfg, dt);
  }

  /** And no dimmer than it has to be: the power gain goes down at once to the cap's share and comes up to it by the
      part of the way that half a second's decay leaves; below that the frame is dimmed only if its luminance or
      its red is then exactly as far up as it may be. */
  lemma NoDimmerThanNeeded(s: State, cfg: Config, input: Means, dt: real, exp: real -> real)
    requires Sane(s) && cfg.enabled && cfg.cap >= 0.0 && Fractions(input) && IsDecay(exp)
    ensures
      var r := Step(s, cfg, input, dt, exp);
      var share := if input.duty > cfg.cap then cfg.cap / input.duty else 1.0;
      var seconds := if dt < 1.0 / 120.0 then 1.0 / 120.0 else if dt > 0.1 then 0.1 else dt;
      && r.state.aplGain ==
           (if share < s.aplGain then share else s.aplGain + (share - s.aplGain) * (1.0 - exp(-seconds / 0.5)))
      && (r.limited.gain == r.state.aplGain
          || r.limited.output.luma == s.prev.luma + Rise(cfg, dt)
          || r.limited.output.red == s.prev.red + Rise(cfg, dt))
      && r.limited.input == input && r.limited.output == Times(input, r.limited.gain) == r.state.prev
      && (r.scaled <==> r.limited.gain < 0.9999)
  {
    hide Rise, Dim;
    OneFrameIsSafe(s, cfg, input, dt, exp);
    var apl, rise := Step(s, cfg, input, dt, exp).state.aplGain, Rise(cfg, dt);
    if Dim(input.luma, apl) > s.prev.luma + rise {
      Quotient(apl, s.prev.luma + rise, input.luma);
    }
    if Dim(input.red, apl) > s.prev.red + rise {
      Quotient(apl, s.prev.red + rise, input.red);
    }
  }

  /** Switched off it lets everything through, and begins again from full gain. */
  lemma SwitchedOff(s: State, cfg: Config, input: Means, dt: real, exp: real -> real)
    requires Sane(s) && !cfg.enabled && cfg.cap >= 0.0
    ensures Step(s, cfg, input, dt, exp) == Result(State(1.0, input), Limited(input, input, 1.0), false)
  {
  }

  // -------------------------------------------------------------------------
  // Runs of frames
  // -------------------------------------------------------------------------

  datatype Shown = Shown(input: Means, dt: real)

  predicate AllFractions(ins: seq<Shown>) {
    forall x :: x in ins ==> Fractions(x.input)
  }

  /** The limiter after these frames, if it ever ends up anywhere sane. */
  ghost function After(s: State, cfg: Config, ins: seq<Shown>, exp: real -> real): (r: State)
    requires Sane(s) && cfg.enabled && cfg.cap >= 0.0 && AllFractions(ins) && IsDecay(exp)
    ensures Sane(r)
  {
    if ins == [] then s
    else
      var before := After(s, cfg, ins[..|ins| - 1], exp);
      assert Last(ins) in ins;
      OneFrameIsSafe(before, cfg, Last(ins).input, Last(ins).dt, exp);
      Step(before, cfg, Last(ins).input, Last(ins).dt, exp).state
  }

  function TotalRise(cfg: Config, ins: seq<Shown>): real {
    if ins == [] then 0.0 else TotalRise(cfg, ins[..|ins| - 1]) + Rise(cfg, Last(ins).dt)
  }

  /** Over any span of frames, the luminance and the red together rise by no more than the limits of the
      frames in it add up to, wherever the span begins. */
  lemma {:induction false} RiseOverASpan(s: State, cfg: Config, ins: seq<Shown>, exp: real -> real)
    requires Sane(s) && cfg.enabled && cfg.cap >= 0.0 && AllFractions(ins) && IsDecay(exp)
    ensures After(s, cfg, ins, exp).prev.luma <= s.prev.luma + TotalRise(cfg, ins)
    ensures After(s, cfg, ins, exp).prev.red <= s.prev.red + TotalRise(cfg, ins)
    ensures ins != [] ==> After(s, cfg, ins, exp).prev.duty <= cfg.cap
  {
    hide Rise, Step;
    if ins != [] {
      var shorter := ins[..|ins| - 1];
      RiseOverASpan(s, cfg, shorter, exp);
      assert Last(ins) in ins;
      OneFrameIsSafe(After(s, cfg, shorter, exp), cfg, Last(ins).input, Last(ins).dt, exp);
      StepKeepsOutput(After(s, cfg, shorter, exp), cfg, Last(ins).input, Last(ins).dt, exp);
    }
  }

  /** How long these frames lasted. */
  function Seconds(ins: seq<Shown>): real {
    if ins == [] then 0.0 else Seconds(ins[..|ins| - 1]) + Last(ins).dt
  }

  lemma {:induction false} TotalRiseIsTime(cfg: Config, ins: seq<Shown>)
    requires cfg.maxRise >= 0.05 && forall x :: x in ins ==> 1.0 / 120.0 <= x.dt <= 0.1
    ensures TotalRise(cfg, ins) == cfg.maxRise * Seconds(ins)
  {
    hide Rise;
    if ins != [] {
      var shorter := ins[..|ins| - 1];
      TotalRiseIsTime(cfg, shorter);
      assert Last(ins) in ins;
      RiseExactly(cfg, Last(ins).dt);
      assert cfg.maxRise * Seconds(shorter) + cfg.maxRise * Last(ins).dt == cfg.maxRise * Seconds(ins);
    }
  }

  /** With frames of ordinary length, over any span the luminance and the red rise by no more than the limit per
      second allows in the time the span took. */
  lemma RiseOverTime(s: State, cfg: Config, ins: seq<Shown>, exp: real -> real)
    requires Sane(s) && cfg.enabled && cfg.cap >= 0.0 && AllFractions(ins) && IsDecay(exp)
    requires cfg.maxRise >= 0.05 && forall x :: x in ins ==> 1.0 / 120.0 <= x.dt <= 0.1
    ensures After(s, cfg, ins, exp).prev.luma <= s.prev.luma + cfg.maxRise * Seconds(ins)
    ensures After(s, cfg, ins, exp).prev.red <= s.prev.red + cfg.maxRise * Seconds(ins)
  {
    hide After, TotalRise, Seconds;
    RiseOverASpan(s, cfg, ins, exp);
    TotalRiseIsTime(cfg, ins);
  }

  lemma {:induction false} AfterCat(s: State, cfg: Config, a: seq<Shown>, b: seq<Shown>, exp: real -> real)
    requires Sane(s) && cfg.enabled && cfg.cap >= 0.0 && AllFractions(a + b) && IsDecay(exp)
    ensures AllFractions(a) && AllFractions(b)
    ensures After(s, cfg, a + b, exp) == After(After(s, cfg, a, exp), cfg, b, exp)
    decreases |b|
  {
    hide Step;
    assert forall x :: x in a || x in b ==> x in a + b;
    if b == [] {
      assert a + b == a;
    } else {
      assert (a + b)[..|a + b| - 1] == a + b[..|b| - 1];
      AfterCat(s, cfg, a, b[..|b| - 1], exp);
    }
  }

  /** A strobe is held down: whatever was shown before, a black frame starts the rise again, and what comes after it
      gets no brighter than the limit per second allows in the time since. */
  lemma StrobeIsHeldDown(s: State, cfg: Config, before: seq<Shown>, black: Shown, white: seq<Shown>, exp: real -> real)
    requires Sane(s) && cfg.enabled && cfg.cap >= 0.0 && cfg.maxRise >= 0.05 && IsDecay(exp)
    requires AllFractions(before + [black] + white) && black.input == ZERO
    requires forall x :: x in white ==> 1.0 / 120.0 <= x.dt <= 0.1
    ensures
      var shown := After(s, cfg, before + [black] + white, exp).prev;
      shown.luma <= cfg.maxRise * Seconds(white) && shown.red <= cfg.maxRise * Seconds(white)
  {
    hide After, Seconds, Step;
    AfterCat(s, cfg, before + [black], white, exp);
    AfterCat(s, cfg, before, [black], exp);
    BlackIsBlack(After(s, cfg, before, exp), cfg, black, exp);
    RiseOverTime(After(s, cfg, before + [black], exp), cfg, white, exp);
  }

  lemma BlackIsBlack(s: State, cfg: Config, black: Shown, exp: real -> real)
    requires Sane(s) && cfg.enabled && cfg.cap >= 0.0 && IsDecay(exp) && black.input == ZERO
    ensures AllFractions([black]) && After(s, cfg, [black], exp).prev == ZERO
  {
    hide Step;
    assert AllFractions([]);
    assert [black][..0] == [];
    NoDimmerThanNeeded(s, cfg, ZERO, black.dt, exp);
  }

  /** From the start a steady grey comes up in a straight line to itself or the cap, and stays there. */
  lemma {:induction false} SteadyGreyComesUp(cfg: Config, v: real, ins: seq<Shown>, exp: real -> real)
    requires cfg.enabled && cfg.cap >= 0.0 && 0.0 <= v <= 1.0 && IsDecay(exp)
    requires forall x :: x in ins ==> x.input == Means(v, v, v)
    ensures AllFractions(ins)
    ensures
      var level := Min(Min(v, cfg.cap), TotalRise(cfg, ins));
      After(Fresh(), cfg, ins, exp).prev == Means(level, level, level)
    ensures After(Fresh(), cfg, ins, exp).aplGain == (if ins == [] then 1.0 else Target(v, cfg.cap))
  {
    hide Step, Rise, Target;
    assert Fractions(Means(v, v, v));
    if ins != [] {
      var shorter := ins[..|ins| - 1];
      SteadyGreyComesUp(cfg, v, shorter, exp);
      assert Last(ins) in ins;
      SteadyStep(After(Fresh(), cfg, shorter, exp), cfg, v, TotalRise(cfg, shorter), Last(ins).dt, exp);
    }
  }

  /** So steady white settles at the cap, once the limit per second has allowed that much. */
  lemma SteadyWhiteSettles(cfg: Config, ins: seq<Shown>, exp: real -> real)
    requires cfg.enabled && 0.0 <= cfg.cap <= 1.0 && cfg.maxRise >= 0.05 && IsDecay(exp)
    requires forall x :: x in ins ==> x.input == Means(1.0, 1.0, 1.0) && 1.0 / 120.0 <= x.dt <= 0.1
    ensures AllFractions(ins)
    ensures After(Fresh(), cfg, ins, exp).prev.duty == cfg.cap <==> cfg.maxRise * Seconds(ins) >= cfg.cap
  {
    hide After, Seconds, TotalRise;
    SteadyGreyComesUp(cfg, 1.0, ins, exp);
    TotalRiseIsTime(cfg, ins);
  }

  lemma SteadyStep(s: State, cfg: Config, v: real, total: real, dt: real, exp: real -> real)
    requires cfg.enabled && cfg.cap >= 0.0 && 0.0 <= v <= 1.0 && IsDecay(exp) && total >= 0.0
    requires s.aplGain == 1.0 || s.aplGain == Target(v, cfg.cap)
    requires s.prev == (var level := Min(Min(v, cfg.cap), total); Means(level, level, level))
    ensures Sane(s)
    ensures
      var r := Step(s, cfg, Means(v, v, v), dt, exp).state;
      var level := Min(Min(v, cfg.cap), total + Rise(cfg, dt));
      r == State(Target(v, cfg.cap), Means(level, level, level))
  {
    hide Rise, Gain, Dim, Target;
    SteadyTarget(v, cfg.cap);
    SteadyGain(v, Target(v, cfg.cap), s.prev.luma, Rise(cfg, dt));
  }

  lemma SteadyTarget(v: real, cap: real)
    requires 0.0 <= v <= 1.0 && cap >= 0.0
    ensures 0.0 <= Target(v, cap) <= 1.0 && Dim(v, Target(v, cap)) == Min(v, cap)
  {
    hide Dim;
    TargetIsSafe(v, cap);
    WholePart(v);
    if v > cap {
      Part(cap, v);
    }
  }

  lemma SteadyGain(v: real, apl: real, before: real, rise: real)
    requires 0.0 <= v && 0.0 <= apl && before >= 0.0 && rise > 0.0
    ensures Dim(v, Gain(Means(v, v, v), apl, Means(before, before, before), rise)) == Min(Dim(v, apl), before + rise)
  {
    hide Dim;
    if Dim(v, apl) > before + rise {
      Quotient(apl, before + rise, v);
      var most := Dim(apl, before + rise) / Dim(v, apl);
      if apl <= most {
        Monotone(v, apl, most);
      }
    }
  }

  lemma StepKeepsOutput(s: State, cfg: Config, input: Means, dt: real, exp: real -> real)
    requires Sane(s) && cfg.cap >= 0.0
    ensures Step(s, cfg, input, dt, exp).state.prev == Step(s, cfg, input, dt, exp).limited.output
  {
  }

  // -------------------------------------------------------------------------
  // What the frame really is
  // -------------------------------------------------------------------------

  predicate InGamut(f: Frame)
    requires Whole(f)
  {
    forall i: nat :: i < N ==> AtMostOne(Pixel(f, i))
  }

  /** The frame that is let out. */
  function LetOut(f: Frame, gain: real): (g: Frame)
    requires Whole(f)
    ensures Whole(g)
  {
    if gain < 0.9999 then ScaledFrame(f, gain) else f
  }

  lemma DarkPixel(c: Rgb)
    ensures Of(Clamp01(Scaled(c, 0.0))) == ZERO
  {
    assert Scaled(c, 0.0) == BLACK;
  }

  lemma {:induction false} SumOfDark(f: Frame, n: nat)
    requires Whole(f) && n <= N
    ensures Sum(ScaledFrame(f, 0.0), n) == ZERO
  {
    hide ScaledFrame, Pixel, Scaled, Clamp01, Of;
    if n != 0 {
      SumOfDark(f, n - 1);
      ScaledPixels(f, 0.0, n - 1);
      DarkPixel(Pixel(f, n - 1));
    }
  }

  lemma TimesOne(m: Means, k: real)
    ensures Times(m, 1.0) == m && Times(m, 0.0) == ZERO && Times(ZERO, k) == ZERO
    ensures k != 1.0 ==> (Times(m, k) == m <==> m == ZERO)
  {
    assert m.duty * k == m.duty <==> m.duty * (k - 1.0) == 0.0;
    assert m.luma * k == m.luma <==> m.luma * (k - 1.0) == 0.0;
    assert m.red * k == m.red <==> m.red * (k - 1.0) == 0.0;
  }

  /** The means that are reported are those of the frame that is let out, exactly when: the frame was
      dimmed and no channel was over one (or it was dimmed to black), or it was left alone and there was
      nothing to dim. A gain between 0.9999 and 1 is reported and not applied. */
  lemma ReportIsTrueExactlyWhen(f: Frame, gain: real)
    requires Whole(f) && 0.0 <= gain <= 1.0
    ensures
      MeansOf(LetOut(f, gain)) == Times(MeansOf(f), gain)
      <==> if gain < 0.9999 then gain == 0.0 || InGamut(f) else gain == 1.0 || MeansOf(f) == ZERO
  {
    hide Sum, Times, Pixel, ScaledFrame, AtMostOne;
    TimesOne(MeansOf(f), gain);
    if gain == 0.0 {
      SumOfDark(f, N);
      TimesOne(ZERO, 1.0 / N as real);
    } else if gain < 0.9999 {
      ScaledMeansExactlyWhen(f, gain);
    }
  }

  /** The limiter is about to dim this frame: it is over the cap by more than one part in ten thousand, or a
      power gain that has gone down has not come back up that far, or the luminance or the red has more
      than that to lose to stay within the rise. */
  predicate WillDim(s: State, cfg: Config, m: Means, dt: real, exp: real -> real)
    requires Sane(s) && cfg.cap >= 0.0
  {
    var target := Target(m.duty, cfg.cap);
    || cfg.cap < 0.9999 * m.duty
    || (s.aplGain < 0.9999 && s.aplGain + (target - s.aplGain) * (1.0 - exp(-ClampDt(dt) / 0.5)) < 0.9999)
    || s.prev.luma + Rise(cfg, dt) < 0.9999 * m.luma
    || s.prev.red + Rise(cfg, dt) < 0.9999 * m.red
  }

  lemma TargetDims(duty: real, cap: real)
    requires duty >= 0.0 && cap >= 0.0
    ensures Target(duty, cap) < 0.9999 <==> cap < 0.9999 * duty
  {
    if duty > cap {
      var t := cap / duty;
      assert t * duty == cap;
      assert t < 0.9999 ==> t * duty < 0.9999 * duty;
      assert t >= 0.9999 ==> t * duty >= 0.9999 * duty;
    }
  }

  /** A gain nearly one is brought under that exactly when the rise leaves less than that of `x`. */
  lemma HeldDims(gain: real, apl: real, x: real, before: real, rise: real)
    requires 0.9999 <= apl <= 1.0 && 0.0 <= x && before >= 0.0 && rise > 0.0
    ensures Held(gain, apl, Dim(x, apl), before, rise) < 0.9999 <==> gain < 0.9999 || before + rise < 0.9999 * x
  {
    hide Dim;
    var now, allowed := Dim(x, apl), before + rise;
    DimBounds(x, apl);
    if now > allowed {
      var q := Dim(apl, allowed) / now;
      Quotient(apl, allowed, x);
      assert Dim(x, q) == allowed;
      DimOf(x, q);
    }
  }

  lemma DimBounds(x: real, k: real)
    requires 0.9999 <= k <= 1.0 && 0.0 <= x
    ensures 0.9999 * x <= Dim(x, k) <= x
  {
  }

  lemma DimOf(x: real, q: real)
    requires x > 0.0
    ensures q < 0.9999 <==> Dim(x, q) < 0.9999 * x
  {
    assert q < 0.9999 ==> x * q < x * 0.9999;
    assert q >= 0.9999 ==> x * q >= x * 0.9999;
  }

  lemma AplDims(was: real, duty: real, cap: real, k: real)
    requires 0.0 <= was <= 1.0 && duty >= 0.0 && cap >= 0.0 && 0.0 < k < 1.0
    ensures
      var target := Target(duty, cap);
      NextAplGain(was, target, k) < 0.9999
      <==> cap < 0.9999 * duty || (was < 0.9999 && was + (target - was) * (1.0 - k) < 0.9999)
  {
    hide Target;
    var target := Target(duty, cap);
    TargetDims(duty, cap);
    TargetIsSafe(duty, cap);
    AplBetween(was, target, k);
  }

  /** The gain the limiter is going to use is read off the state, the frame's means and the time. */
  lemma DimsExactlyWhen(s: State, cfg: Config, m: Means, dt: real, exp: real -> real)
    requires Sane(s) && cfg.enabled && cfg.cap >= 0.0 && Fractions(m) && IsDecay(exp)
    ensures Step(s, cfg, m, dt, exp).limited.gain < 0.9999 <==> WillDim(s, cfg, m, dt, exp)
  {
    hide Target, NextAplGain, Held, Rise, Dim;
    var k, rise := exp(-ClampDt(dt) / 0.5), Rise(cfg, dt);
    OneFrameIsSafe(s, cfg, m, dt, exp);
    AplDims(s.aplGain, m.duty, cfg.cap, k);
    var apl := NextAplGain(s.aplGain, Target(m.duty, cfg.cap), k);
    if apl >= 0.9999 {
      var held := Held(apl, apl, Dim(m.luma, apl), s.prev.luma, rise);
      HeldDims(apl, apl, m.luma, s.prev.luma, rise);
      HeldDims(held, apl, m.red, s.prev.red, rise);
    }
  }

  /** The duty of what is let out, for every frame: with the frame dimmed, what is reported and what the channels
      over one keep; otherwise what came. So that is what has to be under the cap. */
  lemma UnderTheCapExactlyWhen(f: Frame, s: State, cfg: Config, dt: real, exp: real -> real)
    requires Whole(f) && Sane(s) && cfg.enabled && cfg.cap >= 0.0 && IsDecay(exp)
    ensures
      var limited := Step(s, cfg, MeansOf(f), dt, exp).limited;
      MeansOf(LetOut(f, limited.gain)).duty <= cfg.cap
      <==> if WillDim(s, cfg, MeansOf(f), dt, exp) then limited.output.duty + Spill(f, limited.gain) <= cfg.cap
           else MeansOf(f).duty <= cfg.cap
  {
    hide Step, MeansOf, Times, ScaledFrame, InGamut, WillDim, Spill;
    MeansAreFractions(f);
    OneFrameIsSafe(s, cfg, MeansOf(f), dt, exp);
    StepReports(s, cfg, MeansOf(f), dt, exp);
    DimsExactlyWhen(s, cfg, MeansOf(f), dt, exp);
    var gain := Step(s, cfg, MeansOf(f), dt, exp).limited.gain;
    TimesIs(MeansOf(f), gain);
    if gain < 0.9999 {
      ScaledDutySpills(f, gain);
    }
  }

  lemma TimesIs(m: Means, k: real)
    ensures Times(m, k).duty == Dim(m.duty, k) && Times(m, k).luma == Dim(m.luma, k) && Times(m, k).red == Dim(m.red, k)
  {
  }

  /** With no channel over one, the frame that is let out is under the cap exactly when it came under it or the
      state, the frame's means and the time have it dimmed; and at worst it is over the cap by one part in
      ten thousand. */
  lemma InGamutUnderTheCapExactlyWhen(f: Frame, s: State, cfg: Config, dt: real, exp: real -> real)
    requires Whole(f) && InGamut(f) && Sane(s) && cfg.enabled && cfg.cap >= 0.0 && IsDecay(exp)
    ensures
      var duty := MeansOf(LetOut(f, Step(s, cfg, MeansOf(f), dt, exp).limited.gain)).duty;
      && (duty <= cfg.cap <==> MeansOf(f).duty <= cfg.cap || WillDim(s, cfg, MeansOf(f), dt, exp))
      && duty * 0.9999 <= cfg.cap
  {
    hide Step, MeansOf, Times, ScaledFrame, WillDim, Spill, AtMostOne, Pixel;
    MeansAreFractions(f);
    OneFrameIsSafe(s, cfg, MeansOf(f), dt, exp);
    StepReports(s, cfg, MeansOf(f), dt, exp);
    DimsExactlyWhen(s, cfg, MeansOf(f), dt, exp);
    var gain := Step(s, cfg, MeansOf(f), dt, exp).limited.gain;
    TimesIs(MeansOf(f), gain);
    UnderTheCapExactlyWhen(f, s, cfg, dt, exp);
    if gain < 0.9999 {
      ScaledDutySpills(f, gain);
    } else {
      OverTheCap(MeansOf(f), gain, cfg.cap);
    }
  }

  /** It is the cap that decides how far this frame is dimmed: the power gain need not recover first, and neither
      the luminance nor the red has further to come down. */
  predicate CapAlone(s: State, cfg: Config, m: Means, dt: real)
    requires cfg.cap >= 0.0
  {
    var target := Target(m.duty, cfg.cap);
    && target <= s.aplGain
    && Dim(m.luma, target) <= s.prev.luma + Rise(cfg, dt)
    && Dim(m.red, target) <= s.prev.red + Rise(cfg, dt)
  }

  lemma CapAloneGain(s: State, cfg: Config, m: Means, dt: real, exp: real -> real)
    requires Sane(s) && cfg.enabled && cfg.cap >= 0.0 && Fractions(m) && IsDecay(exp)
    ensures Step(s, cfg, m, dt, exp).limited.gain == Target(m.duty, cfg.cap) <==> CapAlone(s, cfg, m, dt)
  {
    hide Target, Rise, Dim;
    OneFrameIsSafe(s, cfg, m, dt, exp);
    var target, apl := Target(m.duty, cfg.cap), Step(s, cfg, m, dt, exp).state.aplGain;
    var k := exp(-ClampDt(dt) / 0.5);
    StaysShort(s.aplGain, target, k);
    if apl == target {
      if Dim(m.luma, apl) > s.prev.luma + Rise(cfg, dt) {
        HeldShort(apl, m.luma, s.prev.luma, Rise(cfg, dt));
      }
      if Dim(m.red, apl) > s.prev.red + Rise(cfg, dt) {
        HeldShort(apl, m.red, s.prev.red, Rise(cfg, dt));
      }
    }
  }

  lemma StaysShort(was: real, target: real, k: real)
    requires 0.0 < k < 1.0
    ensures NextAplGain(was, target, k) == target <==> target <= was
  {
    if target > was {
      assert (target - was) * k > 0.0;
      assert was + (target - was) * (1.0 - k) == target - (target - was) * k;
    }
  }

  lemma HeldShort(apl: real, x: real, before: real, rise: real)
    requires apl >= 0.0 && x >= 0.0 && before >= 0.0 && rise > 0.0 && Dim(x, apl) > before + rise
    ensures Dim(apl, before + rise) / Dim(x, apl) < apl
  {
    var now, allowed := x * apl, before + rise;
    var q := apl * allowed / now;
    assert q * now == apl * allowed;
    assert apl > 0.0;
    assert q >= apl ==> q * now >= apl * now;
    assert apl * now > apl * allowed;
  }

  /** A frame that is dimmed by the cap alone leaves under the cap exactly when no channel of it is over one. */
  lemma DimmedByTheCapExactlyWhen(f: Frame, s: State, cfg: Config, dt: real, exp: real -> real)
    requires Whole(f) && Sane(s) && cfg.enabled && IsDecay(exp) && 0.0 < cfg.cap < 0.9999 * MeansOf(f).duty
    requires CapAlone(s, cfg, MeansOf(f), dt)
    ensures MeansOf(LetOut(f, Step(s, cfg, MeansOf(f), dt, exp).limited.gain)).duty <= cfg.cap <==> InGamut(f)
  {
    hide Step, MeansOf, Times, ScaledFrame, Spill, AtMostOne, Pixel, CapAlone;
    MeansAreFractions(f);
    CapAloneGain(s, cfg, MeansOf(f), dt, exp);
    var duty := MeansOf(f).duty;
    TargetDims(duty, cfg.cap);
    Part(cfg.cap, duty);
    assert Target(duty, cfg.cap) > 0.0 by {
      assert (cfg.cap / duty) * duty == cfg.cap;
    }
    ScaledDutySpills(f, Target(duty, cfg.cap));
  }

  lemma StepReports(s: State, cfg: Config, input: Means, dt: real, exp: real -> real)
    requires Sane(s) && cfg.enabled && cfg.cap >= 0.0
    ensures
      var l := Step(s, cfg, input, dt, exp).limited;
      l.output == Times(input, l.gain)
  {
  }

  lemma OverTheCap(m: Means, gain: real, cap: real)
    requires Times(m, gain).duty <= cap && gain >= 0.9999 && m.duty >= 0.0
    ensures m.duty * 0.9999 <= cap
  {
    assert m.duty * gain >= m.duty * 0.9999;
  }

  // -------------------------------------------------------------------------
  // The light of runs of frames
  // -------------------------------------------------------------------------

  datatype Drawn = Drawn(frame: Frame, dt: real)

  predicate AllInGamut(ds: seq<Drawn>) {
    forall d :: d in ds ==> Whole(d.frame) && InGamut(d.frame)
  }

  /** What the limiter is shown of these frames. */
  function Inputs(ds: seq<Drawn>): (ins: seq<Shown>)
    requires AllInGamut(ds)
    ensures AllFractions(ins) && |ins| == |ds|
  {
    if ds == [] then []
    else
      assert Last(ds) in ds;
      MeansAreFractions(Last(ds).frame);
      Inputs(ds[..|ds| - 1]) + [Shown(MeansOf(Last(ds).frame), Last(ds).dt)]
  }

  /** The means of the light of the last of these frames. */
  ghost function Light(s: State, cfg: Config, ds: seq<Drawn>, exp: real -> real): Means
    requires Sane(s) && cfg.enabled && cfg.cap >= 0.0 && AllInGamut(ds) && IsDecay(exp) && ds != []
  {
    assert Last(ds) in ds;
    var before := After(s, cfg, Inputs(ds[..|ds| - 1]), exp);
    MeansOf(LetOut(Last(ds).frame, Step(before, cfg, MeansOf(Last(ds).frame), Last(ds).dt, exp).limited.gain))
  }

  /** What is reported of a frame in gamut is no more than its light, and less by one part in ten thousand at
      the most. */
  lemma ReportIsNear(f: Frame, gain: real)
    requires Whole(f) && InGamut(f) && 0.0 <= gain <= 1.0
    ensures
      var light, report := MeansOf(LetOut(f, gain)), Times(MeansOf(f), gain);
      && 0.9999 * light.luma <= report.luma <= light.luma
      && 0.9999 * light.red <= report.red <= light.red
      && 0.9999 * light.duty <= report.duty <= light.duty
  {
    hide MeansOf, ScaledFrame, InGamut, Times;
    ReportIsTrueExactlyWhen(f, gain);
    MeansAreFractions(f);
    var m := MeansOf(f);
    TimesIs(m, gain);
    if gain < 0.9999 {
      NoLessThanNothing(m, gain);
    } else {
      NearlyAll(m.luma, gain);
      NearlyAll(m.red, gain);
      NearlyAll(m.duty, gain);
    }
  }

  lemma NoLessThanNothing(m: Means, k: real)
    requires Fractions(m) && 0.0 <= k
    ensures Times(m, k).luma >= 0.0 && Times(m, k).red >= 0.0 && Times(m, k).duty >= 0.0
  {
  }

  lemma NearlyAll(v: real, k: real)
    requires v >= 0.0 && 0.9999 <= k <= 1.0
    ensures 0.9999 * v <= Dim(v, k) <= v
  {
  }

  /** The light itself: with every frame in gamut, over any span the luminance and the red that leave rise by no
      more than the limits of its frames add up to, but for one part in ten thousand; and what the limiter
      remembers of a frame, where a span begins, is no more than its light. */
  lemma LightOverASpan(s: State, cfg: Config, ds: seq<Drawn>, exp: real -> real)
    requires Sane(s) && cfg.enabled && cfg.cap >= 0.0 && AllInGamut(ds) && IsDecay(exp) && ds != []
    ensures
      var light, ins := Light(s, cfg, ds, exp), Inputs(ds);
      && 0.9999 * light.luma <= s.prev.luma + TotalRise(cfg, ins)
      && 0.9999 * light.red <= s.prev.red + TotalRise(cfg, ins)
      && 0.9999 * light.duty <= cfg.cap
      && After(s, cfg, ins, exp).prev.luma <= light.luma && After(s, cfg, ins, exp).prev.red <= light.red
  {
    hide MeansOf, LetOut, InGamut, Step, TotalRise;
    assert Last(ds) in ds;
    var ins, shorter := Inputs(ds), Inputs(ds[..|ds| - 1]);
    assert ins[..|ins| - 1] == shorter;
    RiseOverASpan(s, cfg, ins, exp);
    var before := After(s, cfg, shorter, exp);
    var m, dt := MeansOf(Last(ds).frame), Last(ds).dt;
    MeansAreFractions(Last(ds).frame);
    OneFrameIsSafe(before, cfg, m, dt, exp);
    StepReports(before, cfg, m, dt, exp);
    StepKeepsOutput(before, cfg, m, dt, exp);
    ReportIsNear(Last(ds).frame, Step(before, cfg, m, dt, exp).limited.gain);
  }

  function Flat(c: Rgb): Frame {
    Linear(seq(N, _ => c))
  }

  lemma {:induction false} SumOfFlat(c: Rgb, n: nat)
    requires n <= N
    ensures Sum(Flat(c), n) == Times(Of(Clamp01(c)), n as real)
  {
    hide Of, Clamp01;
    if n != 0 {
      SumOfFlat(c, n - 1);
      OneMoreTime(Of(Clamp01(c)), n as real - 1.0);
    }
  }

  lemma OneMoreTime(m: Means, n: real)
    ensures Plus(Times(m, n), m) == Times(m, n + 1.0)
  {
  }

  lemma MeansOfFlat(c: Rgb)
    ensures MeansOf(Flat(c)) == Of(Clamp01(c))
  {
    hide Of, Clamp01, Sum;
    SumOfFlat(c, N);
    TimesBack(Of(Clamp01(c)), N as real);
  }

  lemma TimesBack(m: Means, n: real)
    requires n != 0.0
    ensures Times(Times(m, n), 1.0 / n) == m
  {
    assert n * (1.0 / n) == 1.0;
    assert m.duty * n * (1.0 / n) == m.duty * (n * (1.0 / n));
    assert m.luma * n * (1.0 / n) == m.luma * (n * (1.0 / n));
    assert m.red * n * (1.0 / n) == m.red * (n * (1.0 / n));
  }

  /** A white frame after black rises by two thirtieths in a thirtieth of a second, with the limits the program
      comes with. */
  lemma FirstWhiteFrame(exp: real -> real)
    requires IsDecay(exp)
    ensures
      var r := Step(Fresh(), Config(true, 0.4, 2.0), MeansOf(Flat(Rgb(1.0, 1.0, 1.0))), 1.0 / 30.0, exp);
      r.limited.output.luma == r.limited.output.red == 2.0 / 30.0
  {
    hide MeansOf;
    var c := Rgb(1.0, 1.0, 1.0);
    MeansOfFlat(c);
    var m := Of(Clamp01(c));
    assert m == Means(1.0, 1.0, 1.0);
    NoDimmerThanNeeded(Fresh(), Config(true, 0.4, 2.0), m, 1.0 / 30.0, exp);
    OneFrameRises(Fresh(), Config(true, 0.4, 2.0), m, 1.0 / 30.0, exp);
    RiseExactly(Config(true, 0.4, 2.0), 1.0 / 30.0);
  }

  /** What the means are of: the weights of the three channels in the luminance, and a third of each in the duty. */
  lemma MeansOfOneChannel(v: real)
    requires 0.0 <= v <= 1.0
    ensures MeansOf(Flat(Rgb(v, 0.0, 0.0))) == Means(v / 3.0, 0.2126 * v, v)
    ensures MeansOf(Flat(Rgb(0.0, v, 0.0))) == Means(v / 3.0, 0.7152 * v, 0.0)
    ensures MeansOf(Flat(Rgb(0.0, 0.0, v))) == Means(v / 3.0, 0.0722 * v, 0.0)
  {
    hide MeansOf;
    MeansOfFlat(Rgb(v, 0.0, 0.0));
    MeansOfFlat(Rgb(0.0, v, 0.0));
    MeansOfFlat(Rgb(0.0, 0.0, v));
  }

  /** It happens: a frame just over the cap is let out as it came. */
  lemma JustOverTheCapIsLetOut(exp: real -> real)
    requires IsDecay(exp)
    ensures
      var cfg := Config(true, 0.4, 100.0);
      var f := Flat(Rgb(0.40002, 0.40002, 0.40002));
      var r := Step(Fresh(), cfg, MeansOf(f), 0.1, exp);
      LetOut(f, r.limited.gain) == f && MeansOf(f).duty > 0.4 && r.limited.output.duty <= 0.4
  {
    hide MeansOf;
    var cfg := Config(true, 0.4, 100.0);
    var c := Rgb(0.40002, 0.40002, 0.40002);
    MeansOfFlat(c);
    var m := Of(Clamp01(c));
    assert m == Means(0.40002, 0.40002, 0.40002);
    OneFrameIsSafe(Fresh(), cfg, m, 0.1, exp);
    var target := Target(m.duty, 0.4);
    assert target == 0.4 / 0.40002;
    assert 0.9999 < target < 1.0;
  }

  lemma ScaledFlat(c: Rgb, k: real)
    ensures ScaledFrame(Flat(c), k) == Flat(Scaled(c, k))
  {
  }

  /** It happens: a frame with every channel at two leaves at twice the cap, and is reported as at the cap. */
  lemma OverOneLeavesAtTwiceTheCap(exp: real -> real)
    requires IsDecay(exp)
    ensures
      var f := Flat(Rgb(2.0, 2.0, 2.0));
      var r := Step(Fresh(), Config(true, 0.4, 100.0), MeansOf(f), 0.1, exp);
      r.limited.output.duty == 0.4 && MeansOf(LetOut(f, r.limited.gain)).duty == 0.8
  {
    hide MeansOf, ScaledFrame;
    var cfg := Config(true, 0.4, 100.0);
    var c := Rgb(2.0, 2.0, 2.0);
    MeansOfFlat(c);
    var m := Of(Clamp01(c));
    assert m == Means(1.0, 1.0, 1.0);
    CapAloneGain(Fresh(), cfg, m, 0.1, exp);
    StepReports(Fresh(), cfg, m, 0.1, exp);
    ScaledFlat(c, 0.4);
    MeansOfFlat(Scaled(c, 0.4));
    assert Scaled(c, 0.4) == Rgb(0.8, 0.8, 0.8);
  }

  // -------------------------------------------------------------------------
  // The code
  // -------------------------------------------------------------------------

  class Stage {
    var aplGain: real
    var prev: Means

    function Now(): State
      reads this
    {
      State(aplGain, prev)
    }

    constructor ()
      ensures Now() == Fresh()
    {
      aplGain, prev := 1.0, ZERO;
    }

    /** Limits a frame in place. */
    method Apply(cfg: Config, pic: Picture, dt: real, exp: real -> real) returns (out: Limited)
      requires Whole(pic.frame) && Sane(Now()) && cfg.cap >= 0.0 && IsDecay(exp)
      modifies this, pic
      ensures
        var r := Step(old(Now()), cfg, MeansOf(old(pic.frame)), dt, exp);
        && Now() == r.state && out == r.limited && Sane(Now())
        && pic.frame == if r.scaled then ScaledFrame(old(pic.frame), out.gain) else old(pic.frame)
    {
      hide MeansOf, ScaledFrame, Dim;
      var input := pic.MeansNow();
      MeansAreFractions(pic.frame);
      if !cfg.enabled {
        aplGain, prev := 1.0, input;
        return Limited(input, input, 1.0);
      }
      OneFrameIsSafe(Now(), cfg, input, dt, exp);
      var k := exp(-ClampDt(dt) / 0.5);
      aplGain := NextAplGain(aplGain, Target(input.duty, cfg.cap), k);
      var gain := aplGain;
      var rise := Rise(cfg, dt);
      var pairs := [(Dim(input.luma, aplGain), prev.luma), (Dim(input.red, aplGain), prev.red)];
      for i := 0 to 2
        invariant gain == if i == 0 then aplGain
          else if i == 1 then Held(aplGain, aplGain, pairs[0].0, pairs[0].1, rise)
          else Gain(input, aplGain, prev, rise)
      {
        gain := Held(gain, aplGain, pairs[i].0, pairs[i].1, rise);
      }
      if gain < 0.9999 {
        pic.Scale(gain);
      }
      var output := Times(input, gain);
      prev := output;
      return Limited(input, output, gain);
    }
  }
}
