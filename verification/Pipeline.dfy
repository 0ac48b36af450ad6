/** The output stage's brightness history: the limiter, and the luminance changes of the last two seconds. */
module Pipeline {
  import opened Common
  import opened Frames
  import opened Limiter

  const WINDOW_S: real := 2.0

  /** One luminance change, and when it was. */
  datatype Entry = Entry(t: real, d: real)

  datatype Stats = Stats(apl: real, aplIn: real, luma: real, dluma: real, dlumaPeak: real, gain: real)

  /** What the statistics depend on. */
  datatype History = History(limiter: State, prevLuma: Option<real>, window: seq<Entry>, clock: real)

  function Start(): History {
    History(Fresh(), None, [], 0.0)
  }

  function Abs(x: real): real {
    if x < 0.0 then -x else x
  }

  /** Those of `es` that are at most two seconds old. */
  function Recent(es: seq<Entry>, clock: real): seq<Entry> {
    if es == [] then []
    else
      var before := Recent(es[..|es| - 1], clock);
      if clock - Last(es).t <= 2.0 then before + [Last(es)] else before
  }

  predicate InOrder(es: seq<Entry>) {
    forall i, j :: 0 <= i < j < |es| ==> es[i].t <= es[j].t
  }

  /** The fold that finds the peak. */
  function Peak(es: seq<Entry>): real {
    if es == [] then 0.0 else Max(Peak(es[..|es| - 1]), Last(es).d)
  }

  /** The queue after old entries have been taken off its front. */
  function Popped(es: seq<Entry>, clock: real): seq<Entry>
    decreases es
  {
    if es != [] && clock - es[0].t > WINDOW_S then Popped(es[1..], clock) else es
  }

  function Advance(h: History, cfg: Config, input: Means, dt: real, exp: real -> real): (History, Stats)
    requires Sane(h.limiter) && cfg.cap >= 0.0
  {
    var r := Step(h.limiter, cfg, input, dt, exp);
    var clock := h.clock + dt;
    var luma := r.limited.output.luma;
    var dluma := if h.prevLuma.Some? then Abs(luma - h.prevLuma.value) else 0.0;
    var window := Popped(h.window + [Entry(clock, dluma)], clock);
    (History(r.state, Some(luma), window, clock),
     Stats(r.limited.output.duty, r.limited.input.duty, luma, dluma, Peak(window), r.limited.gain))
  }

  // -------------------------------------------------------------------------
  // Windows
  // -------------------------------------------------------------------------

  lemma {:induction false} RecentAllOld(es: seq<Entry>, clock: real)
    requires forall i :: 0 <= i < |es| ==> clock - es[i].t > WINDOW_S
    ensures Recent(es, clock) == []
  {
    if es != [] {
      RecentAllOld(es[..|es| - 1], clock);
    }
  }

  lemma {:induction false} RecentAllNew(es: seq<Entry>, clock: real)
    requires forall i :: 0 <= i < |es| ==> clock - es[i].t <= WINDOW_S
    ensures Recent(es, clock) == es
  {
    if es != [] {
      RecentAllNew(es[..|es| - 1], clock);
    }
  }

  lemma {:induction false} RecentCat(a: seq<Entry>, b: seq<Entry>, clock: real)
    ensures Recent(a + b, clock) == Recent(a, clock) + Recent(b, clock)
    decreases |b|
  {
    if b == [] {
      assert a + b == a;
    } else {
      assert (a + b)[..|a + b| - 1] == a + b[..|b| - 1];
      RecentCat(a, b[..|b| - 1], clock);
    }
  }

  /** Taking old ones off the front of a queue in order takes off all the old ones. */
  lemma {:induction false} PoppedIsRecent(es: seq<Entry>, clock: real)
    requires InOrder(es)
    ensures Popped(es, clock) == Recent(es, clock)
    decreases es
  {
    if es != [] && clock - es[0].t > WINDOW_S {
      PoppedIsRecent(es[1..], clock);
      RecentAllOld([es[0]], clock);
      RecentCat([es[0]], es[1..], clock);
      assert [es[0]] + es[1..] == es;
    } else {
      RecentAllNew(es, clock);
    }
  }

  /** What was recent later was recent before. */
  lemma {:induction false} RecentOfRecent(es: seq<Entry>, earlier: real, later: real)
    requires earlier <= later
    ensures Recent(Recent(es, earlier), later) == Recent(es, later)
  {
    if es != [] {
      var shorter := es[..|es| - 1];
      RecentOfRecent(shorter, earlier, later);
      if InTime(Last(es), earlier) {
        RecentCat(Recent(shorter, earlier), [Last(es)], later);
        RecentOfOne(Last(es), later);
      }
    }
  }

  predicate InTime(e: Entry, clock: real) {
    clock - e.t <= WINDOW_S
  }

  lemma RecentOfOne(e: Entry, clock: real)
    ensures Recent([e], clock) == if InTime(e, clock) then [e] else []
  {
    assert [e][..0] == [];
  }

  lemma {:induction false} PeakIsTheMaximum(es: seq<Entry>)
    requires es != [] && forall i :: 0 <= i < |es| ==> es[i].d >= 0.0
    ensures forall i :: 0 <= i < |es| ==> es[i].d <= Peak(es)
    ensures exists i :: 0 <= i < |es| && es[i].d == Peak(es)
  {
    var n := |es| - 1;
    if n == 0 {
      assert Peak(es[..0]) == 0.0;
      assert es[0].d == Peak(es);
    } else {
      PeakIsTheMaximum(es[..n]);
      var i :| 0 <= i < n && es[..n][i].d == Peak(es[..n]);
      assert es[i].d == Peak(es) || es[n].d == Peak(es);
      forall j | 0 <= j < n ensures es[j].d <= Peak(es) {
        assert es[..n][j] == es[j];
      }
    }
  }

  // -------------------------------------------------------------------------
  // Runs
  // -------------------------------------------------------------------------

  predicate Forwards(ins: seq<Shown>) {
    forall x :: x in ins ==> Fractions(x.input) && x.dt >= 0.0
  }

  ghost predicate Usable(cfg: Config, exp: real -> real) {
    cfg.cap >= 0.0 && IsDecay(exp)
  }

  lemma StepIsSane(s: State, cfg: Config, input: Means, dt: real, exp: real -> real)
    requires Sane(s) && Usable(cfg, exp) && Fractions(input)
    ensures Sane(Step(s, cfg, input, dt, exp).state)
  {
    if cfg.enabled {
      OneFrameIsSafe(s, cfg, input, dt, exp);
    }
  }

  /** The history after these frames, and every change it has ever noted. */
  ghost function Ran(cfg: Config, ins: seq<Shown>, exp: real -> real): (r: (History, seq<Entry>))
    requires Usable(cfg, exp) && Forwards(ins)
    ensures Sane(r.0.limiter)
  {
    if ins == [] then (Start(), [])
    else
      var (h, log) := Ran(cfg, ins[..|ins| - 1], exp);
      var x := Last(ins);
      assert x in ins;
      StepIsSane(h.limiter, cfg, x.input, x.dt, exp);
      var (next, stats) := Advance(h, cfg, x.input, x.dt, exp);
      (next, log + [Entry(next.clock, stats.dluma)])
  }

  /** What one frame does to the window, the log and the clock. */
  lemma WindowAdvances(h: History, log: seq<Entry>, cfg: Config, input: Means, dt: real, exp: real -> real)
    requires Sane(h.limiter) && cfg.cap >= 0.0 && dt >= 0.0
    requires h.window == Recent(log, h.clock) && InOrder(log)
    requires forall i :: 0 <= i < |log| ==> log[i].t <= h.clock && log[i].d >= 0.0
    ensures
      var (next, stats) := Advance(h, cfg, input, dt, exp);
      var more := log + [Entry(next.clock, stats.dluma)];
      && next.window == Recent(more, next.clock) && InOrder(more) && next.clock == h.clock + dt
      && stats.dlumaPeak == Peak(next.window) && stats.dluma >= 0.0
  {
    hide Step, Peak, Recent, Popped, InOrder;
    var (next, stats) := Advance(h, cfg, input, dt, exp);
    LogGrows(log, h.clock, Entry(next.clock, stats.dluma));
  }

  lemma LogGrows(log: seq<Entry>, clock: real, e: Entry)
    requires InOrder(log) && clock <= e.t && forall i :: 0 <= i < |log| ==> log[i].t <= clock
    ensures Popped(Recent(log, clock) + [e], e.t) == Recent(log + [e], e.t) && InOrder(log + [e])
  {
    hide Popped, Recent;
    RecentIsInOrder(log, clock);
    RecentIsPast(log, clock);
    PoppedIsRecent(Recent(log, clock) + [e], e.t);
    RecentCat(Recent(log, clock), [e], e.t);
    RecentOfRecent(log, clock, e.t);
    RecentCat(log, [e], e.t);
  }

  lemma {:induction false} RecentIsInOrder(es: seq<Entry>, clock: real)
    requires InOrder(es)
    ensures InOrder(Recent(es, clock))
  {
    if es != [] {
      var shorter := es[..|es| - 1];
      RecentIsInOrder(shorter, clock);
      RecentIsBefore(shorter, clock, Last(es).t);
    }
  }

  lemma {:induction false} RecentIsBefore(es: seq<Entry>, clock: real, t: real)
    requires forall i :: 0 <= i < |es| ==> es[i].t <= t
    ensures forall i :: 0 <= i < |Recent(es, clock)| ==> Recent(es, clock)[i].t <= t
  {
    if es != [] {
      RecentIsBefore(es[..|es| - 1], clock, t);
    }
  }

  lemma RecentIsPast(es: seq<Entry>, clock: real)
    requires forall i :: 0 <= i < |es| ==> es[i].t <= clock
    ensures forall i :: 0 <= i < |Recent(es, clock)| ==> Recent(es, clock)[i].t <= clock
  {
    RecentIsBefore(es, clock, clock);
  }

  /** After any frames with time going forwards, the queue is exactly the changes at most two seconds old, in
      order. */
  lemma {:induction false} WindowIsTheLastTwoSeconds(cfg: Config, ins: seq<Shown>, exp: real -> real)
    requires Usable(cfg, exp) && Forwards(ins)
    ensures
      var (h, log) := Ran(cfg, ins, exp);
      && h.window == Recent(log, h.clock) && InOrder(log) && |log| == |ins|
      && forall i :: 0 <= i < |log| ==> log[i].t <= h.clock && log[i].d >= 0.0
  {
    hide Recent, Advance, InOrder;
    if ins == [] {
      NothingRecent();
    } else {
      var shorter := ins[..|ins| - 1];
      WindowIsTheLastTwoSeconds(cfg, shorter, exp);
      var (h, log) := Ran(cfg, shorter, exp);
      var x := Last(ins);
      assert x in ins;
      WindowAdvances(h, log, cfg, x.input, x.dt, exp);
    }
  }

  lemma NothingRecent()
    ensures Recent([], 0.0) == [] && InOrder([])
  {
  }

  lemma {:induction false} RecentAreSome(es: seq<Entry>, clock: real)
    ensures forall i :: 0 <= i < |Recent(es, clock)| ==> Recent(es, clock)[i] in es
  {
    if es != [] {
      RecentAreSome(es[..|es| - 1], clock);
    }
  }

  /** And the peak that is reported is the largest of them. */
  lemma ReportedPeakIsTheLargest(cfg: Config, ins: seq<Shown>, x: Shown, exp: real -> real)
    requires Usable(cfg, exp) && Forwards(ins + [x]) && Forwards(ins)
    ensures
      var h := Ran(cfg, ins, exp).0;
      var (next, stats) := Advance(h, cfg, x.input, x.dt, exp);
      && (forall i :: 0 <= i < |next.window| ==> next.window[i].d <= stats.dlumaPeak)
      && exists i :: 0 <= i < |next.window| && next.window[i].d == stats.dlumaPeak
  {
    hide Recent, Advance, InOrder;
    assert x in ins + [x];
    WindowIsTheLastTwoSeconds(cfg, ins, exp);
    var (h, log) := Ran(cfg, ins, exp);
    WindowAdvances(h, log, cfg, x.input, x.dt, exp);
    var (next, stats) := Advance(h, cfg, x.input, x.dt, exp);
    var e := Entry(next.clock, stats.dluma);
    var more := log + [e];
    RecentAreSome(more, next.clock);
    RecentCat(log, [e], next.clock);
    RecentOfOne(e, next.clock);
    forall i | 0 <= i < |next.window| ensures next.window[i].d >= 0.0 {
      assert next.window[i] in more;
    }
    PeakIsTheMaximum(next.window);
  }

  /** What one frame does, given the frame before it. */
  lemma AdvanceIs(h: History, cfg: Config, input: Means, dt: real, exp: real -> real)
    requires Sane(h.limiter) && cfg.cap >= 0.0
    ensures
      var (next, stats) := Advance(h, cfg, input, dt, exp);
      var r := Step(h.limiter, cfg, input, dt, exp);
      && next.limiter == r.state && next.prevLuma == Some(stats.luma) && next.clock == h.clock + dt
      && stats.aplIn == r.limited.input.duty && stats.apl == r.limited.output.duty
      && stats.luma == r.limited.output.luma && stats.gain == r.limited.gain
      && stats.dluma >= 0.0
      && (h.prevLuma.Some? ==>
            stats.luma == h.prevLuma.value + stats.dluma || stats.luma == h.prevLuma.value - stats.dluma)
      && (h.prevLuma.None? ==> stats.dluma == 0.0)
      && next.window != [] && Last(next.window) == Entry(next.clock, stats.dluma)
  {
    hide Step, Popped;
    var (next, stats) := Advance(h, cfg, input, dt, exp);
    PoppedKeepsLast(h.window, Entry(next.clock, stats.dluma));
  }

  /** What the statistics of a frame are: the duties before and after the limiter, the luminance it let out, how far
      that is from what it let out of the frame before, whichever is brighter, and the gain. */
  lemma StatsAre(cfg: Config, ins: seq<Shown>, x: Shown, y: Shown, exp: real -> real)
    requires Usable(cfg, exp) && Forwards(ins) && Forwards(ins + [x]) && Forwards(ins + [x] + [y])
    ensures
      var h := Ran(cfg, ins + [x], exp).0;
      var first := Advance(Ran(cfg, ins, exp).0, cfg, x.input, x.dt, exp).1;
      var (next, second) := Advance(h, cfg, y.input, y.dt, exp);
      var limited := Step(h.limiter, cfg, y.input, y.dt, exp).limited;
      && next == Ran(cfg, ins + [x] + [y], exp).0
      && second.aplIn == y.input.duty && second.apl == limited.output.duty
      && second.luma == limited.output.luma && second.gain == limited.gain
      && second.dluma >= 0.0
      && (second.luma == first.luma + second.dluma || second.luma == first.luma - second.dluma)
      && next.clock == h.clock + y.dt
  {
    hide Step, Advance, Ran;
    RanOneMore(cfg, ins, x, exp);
    RanOneMore(cfg, ins + [x], y, exp);
    AdvanceIs(Ran(cfg, ins, exp).0, cfg, x.input, x.dt, exp);
    var h := Ran(cfg, ins + [x], exp).0;
    AdvanceIs(h, cfg, y.input, y.dt, exp);
    StepShowsInput(h.limiter, cfg, y.input, y.dt, exp);
  }

  lemma StepShowsInput(s: State, cfg: Config, input: Means, dt: real, exp: real -> real)
    requires Sane(s) && cfg.cap >= 0.0
    ensures Step(s, cfg, input, dt, exp).limited.input == input
  {
  }

  /** The first frame of all is no change, however bright; the clock starts with it. */
  lemma FirstFrame(cfg: Config, x: Shown, exp: real -> real)
    requires Usable(cfg, exp) && Forwards([x])
    ensures
      var (h, stats) := Advance(Ran(cfg, [], exp).0, cfg, x.input, x.dt, exp);
      && h == Ran(cfg, [x], exp).0 && h.clock == x.dt
      && stats.dluma == stats.dlumaPeak == 0.0 && h.window == [Entry(x.dt, 0.0)]
  {
    hide Step, Advance;
    assert [] + [x] == [x];
    RanOneMore(cfg, [], x, exp);
    FirstAdvance(cfg, x, exp);
  }

  lemma FirstAdvance(cfg: Config, x: Shown, exp: real -> real)
    requires cfg.cap >= 0.0
    ensures
      var (h, stats) := Advance(Start(), cfg, x.input, x.dt, exp);
      h.clock == x.dt && stats.dluma == stats.dlumaPeak == 0.0 && h.window == [Entry(x.dt, 0.0)]
  {
    hide Step;
    var e := Entry(x.dt, 0.0);
    assert 0.0 + x.dt == x.dt && [] + [e] == [e];
    assert Popped([e], x.dt) == [e];
    assert [e][..0] == [] && Peak([e]) == 0.0;
  }

  lemma RanOneMore(cfg: Config, ins: seq<Shown>, x: Shown, exp: real -> real)
    requires Usable(cfg, exp) && Forwards(ins) && Forwards(ins + [x])
    ensures Ran(cfg, ins + [x], exp).0 == Advance(Ran(cfg, ins, exp).0, cfg, x.input, x.dt, exp).0
    ensures Sane(Ran(cfg, ins, exp).0.limiter)
  {
    hide Advance, Step;
    assert (ins + [x])[..|ins + [x]| - 1] == ins;
  }

  lemma {:induction false} PoppedKeepsLast(es: seq<Entry>, e: Entry)
    ensures
      var r := Popped(es + [e], e.t);
      r != [] && Last(r) == e
    decreases |es|
  {
    if es != [] {
      assert (es + [e])[1..] == es[1..] + [e];
      PoppedKeepsLast(es[1..], e);
    } else {
      assert es + [e] == [e];
    }
  }

  // -------------------------------------------------------------------------
  // The code
  // -------------------------------------------------------------------------

  class Pipe {
    const limiter: Stage
    var prevLuma: Option<real>
    var window: seq<Entry>
    var clock: real

    function Now(): History
      reads this, limiter
    {
      History(limiter.Now(), prevLuma, window, clock)
    }

    constructor ()
      ensures Now() == Start() && fresh(limiter)
    {
      limiter := new Stage();
      prevLuma, window, clock := None, [], 0.0;
    }

    constructor From(limiter: Stage, h: History)
      requires limiter.Now() == h.limiter
      ensures Now() == h && this.limiter == limiter
    {
      this.limiter := limiter;
      prevLuma, window, clock := h.prevLuma, h.window, h.clock;
    }

    /** A second pipeline that carries on from this one's history. */
    method Fork() returns (p: Pipe)
      ensures p.Now() == Now() && fresh(p) && fresh(p.limiter)
    {
      var copy := new Stage();
      copy.aplGain, copy.prev := limiter.aplGain, limiter.prev;
      p := new Pipe.From(copy, Now());
    }

    /** Shortens an indexed frame's palette, limits the frame and says what the statistics are. */
    method Process(cfg: Config, pic: Picture, dt: real, exp: real -> real) returns (stats: Stats)
      requires Whole(pic.frame) && Sane(limiter.Now()) && Usable(cfg, exp)
      modifies this, limiter, pic
      ensures (Now(), stats) == Advance(old(Now()), cfg, MeansOf(old(pic.frame)), dt, exp) && Sane(limiter.Now())
      ensures
        var r, f := Step(old(limiter.Now()), cfg, MeansOf(old(pic.frame)), dt, exp), Truncated(old(pic.frame));
        pic.frame == if r.scaled then ScaledFrame(f, r.limited.gain) else f
    {
      hide MeansOf, Step, ScaledFrame, Truncated;
      pic.Truncate();
      var limited := limiter.Apply(cfg, pic, dt, exp);
      clock := clock + dt;
      var luma := limited.output.luma;
      var dluma := if prevLuma.Some? then Abs(luma - prevLuma.value) else 0.0;
      prevLuma := Some(luma);
      window := window + [Entry(clock, dluma)];
      ghost var pushed := window;
      while window != [] && clock - window[0].t > WINDOW_S
        invariant Popped(window, clock) == Popped(pushed, clock)
        decreases |window|
        modifies this`window
      {
        window := window[1..];
      }
      var peak := 0.0;
      for i := 0 to |window|
        invariant peak == Peak(window[..i])
      {
        assert window[..i + 1][..i] == window[..i];
        peak := Max(peak, window[i].d);
      }
      assert window[..|window|] == window;
      stats := Stats(limited.output.duty, limited.input.duty, luma, dluma, peak, limited.gain);
    }
  }

  /** A fork that is given the same frames says the same for ever. */
  method FeedBoth(p: Pipe, cfg: Config, frames: seq<Frame>, dts: seq<real>, exp: real -> real)
    returns (a: seq<Stats>, b: seq<Stats>)
    requires Sane(p.limiter.Now()) && Usable(cfg, exp)
    requires |dts| == |frames| && forall f :: f in frames ==> Whole(f)
    modifies p, p.limiter
    ensures a == b && |a| == |frames|
  {
    hide Advance, MeansOf, Step;
    var q := p.Fork();
    a, b := [], [];
    for i := 0 to |frames|
      invariant fresh(q) && fresh(q.limiter) && a == b && |a| == i
      invariant p.Now() == q.Now() && Sane(p.limiter.Now())
    {
      var one := new Picture(frames[i]);
      var other := new Picture(frames[i]);
      var s := p.Process(cfg, one, dts[i], exp);
      var t := q.Process(cfg, other, dts[i], exp);
      a, b := a + [s], b + [t];
    }
  }
}
