/** The lock-free triple buffer between the frame task (core 0) and the display task (core 1).

    Three frame slots and one atomic word. The producer owns one slot, the consumer owns one, and
    the word names the third together with a bit that says the consumer has not taken it yet.
    Publishing is one swap; acquiring is a load and then a swap, so a publish can land in between.

    The classes are the source's three structs. Every shared-memory access is one method, and each
    method is tied to a step of `Machine`, whose runs are all the interleavings of the two cores. */
module TripleBuffer {
  import opened Common

  const FRESH: bv32 := 0x4
  const IDX: bv32 := 0x3

  // -------------------------------------------------------------------------
  // The memory both cores see, and the atomic steps on it
  // -------------------------------------------------------------------------

  /** The three slots, the arbitrating word, and the two ends' own indices. */
  datatype Memory<F> = Memory(slots: seq<F>, shared: bv32, w: bv32, r: bv32)

  predicate IsFresh(shared: bv32) {
    shared & FRESH != 0
  }

  predicate IsIndex(i: bv32) {
    i == 0 || i == 1 || i == 2
  }

  /** `w`, `r` and the index in the shared word are the three slots, each once. */
  predicate Owned<F>(m: Memory<F>) {
    && |m.slots| == 3
    && IsIndex(m.w) && IsIndex(m.r) && IsIndex(m.shared & IDX)
    && (m.shared == m.shared & IDX || m.shared == (m.shared & IDX) | FRESH)
    && m.w != m.r && m.w != m.shared & IDX && m.r != m.shared & IDX
  }

  /** The slot number a word names. */
  function At(i: bv32): (k: nat)
    ensures k < 3
  {
    if i == 0 then 0 else if i == 1 then 1 else 2
  }

  function Initial<F>(black: F): (m: Memory<F>)
    ensures Owned(m) && !IsFresh(m.shared)
  {
    Memory([black, black, black], 2, 0, 1)
  }

  function Composed<F>(m: Memory<F>, f: F): Memory<F>
    requires |m.slots| == 3
  {
    m.(slots := m.slots[At(m.w) := f])
  }

  function Published<F>(m: Memory<F>): Memory<F> {
    m.(shared := m.w | FRESH, w := m.shared & IDX)
  }

  function Swapped<F>(m: Memory<F>): Memory<F> {
    m.(shared := m.r, r := m.shared & IDX)
  }

  /** What one swap does to ownership: whoever swaps gets the spare slot and gives away its own. */
  lemma SwapsKeepOwnership<F>(m: Memory<F>)
    requires Owned(m)
    ensures Owned(Published(m)) && IsFresh(Published(m).shared)
    ensures Published(m).shared & IDX == m.w && Published(m).r == m.r
    ensures Owned(Swapped(m)) && !IsFresh(Swapped(m).shared)
    ensures Swapped(m).shared & IDX == m.r && Swapped(m).w == m.w
  {
    assert (m.w | FRESH) & IDX == m.w;
    assert (m.w | FRESH) & FRESH == FRESH;
    assert m.r & IDX == m.r && m.r & FRESH == 0;
  }

  // -------------------------------------------------------------------------
  // The source's structs
  // -------------------------------------------------------------------------

  class Slots<F> {
    const slots: array<F>
    var shared: bv32
    var handedOut: bool

    constructor (black: F)
      ensures slots.Length == 3 && slots[..] == [black, black, black]
      ensures shared == 2 && !handedOut && fresh(slots)
    {
      slots := new F[3](_ => black);
      shared := 2;
      handedOut := false;
    }

    /** The one producer and the one consumer; `None` where the source panics. */
    method Split() returns (ends: Option<(Producer<F>, Consumer<F>)>)
      requires slots.Length == 3
      modifies this`handedOut
      ensures handedOut
      ensures ends.Some? <==> !old(handedOut)
      ensures ends.Some? ==>
        var (p, c) := ends.value;
        && fresh(p) && fresh(c) && p.s == this && c.s == this && p.w == 0 && c.r == 1
        && (shared == 2 && slots[..] == [slots[0], slots[0], slots[0]] ==> View(p, c) == Initial(slots[0]))
    {
      var was := handedOut;
      handedOut := true;
      if was {
        return None;
      }
      var p := new Producer(this, 0);
      var c := new Consumer(this, 1);
      return Some((p, c));
    }
  }

  /** The memory made of the three objects' fields. */
  function View<F>(p: Producer<F>, c: Consumer<F>): Memory<F>
    requires p.s == c.s
    reads p, c, p.s, p.s.slots
  {
    Memory(p.s.slots[..], p.s.shared, p.w, c.r)
  }

  class Producer<F> {
    const s: Slots<F>
    var w: bv32

    constructor (s: Slots<F>, w: bv32)
      ensures this.s == s && this.w == w
    {
      this.s := s;
      this.w := w;
    }

    /** Compose into the back buffer: whole frames, as the five decoders do. */
    method Compose(ghost c: Consumer<F>, f: F)
      requires c.s == s && s.slots.Length == 3
      modifies s.slots
      ensures View(this, c) == Composed(old(View(this, c)), f)
    {
      s.slots[At(w)] := f;
    }

    method Publish(ghost c: Consumer<F>)
      requires c.s == s
      modifies this`w, s`shared
      ensures View(this, c) == Published(old(View(this, c)))
    {
      var before := s.shared;
      s.shared := w | FRESH;
      w := before & IDX;
    }
  }

  class Consumer<F> {
    const s: Slots<F>
    var r: bv32

    constructor (s: Slots<F>, r: bv32)
      ensures this.s == s && this.r == r
    {
      this.s := s;
      this.r := r;
    }

    /** The load at the head of `acquire`. */
    method Peek() returns (waiting: bool)
      ensures waiting <==> IsFresh(s.shared)
    {
      waiting := s.shared & FRESH != 0;
    }

    /** The swap at the end of `acquire`. */
    method Take(ghost p: Producer<F>)
      requires p.s == s
      modifies this`r, s`shared
      ensures View(p, this) == Swapped(old(View(p, this)))
    {
      var before := s.shared;
      s.shared := r;
      r := before & IDX;
    }

    /** `acquire` with nothing landing between its two accesses. */
    method Acquire(ghost p: Producer<F>) returns (got: bool)
      requires p.s == s
      modifies this`r, s`shared
      ensures got <==> IsFresh(old(s.shared))
      ensures View(p, this) == if got then Swapped(old(View(p, this))) else old(View(p, this))
    {
      got := Peek();
      if got {
        Take(p);
      }
    }

    method Front() returns (f: F)
      requires s.slots.Length == 3 && IsIndex(r)
      ensures f == s.slots[At(r)]
    {
      f := s.slots[At(r)];
    }
  }

  // -------------------------------------------------------------------------
  // Every interleaving
  // -------------------------------------------------------------------------

  /** One access by one core. `Load` and `Swap` are the two halves of `acquire`. */
  datatype Event<F> = Compose(f: F) | Publish | Load | Swap

  /** The memory, where the consumer is inside `acquire`, and the history the claims are about:
      the frames published so far, the publish numbers acquired so far, and what each finished
      `acquire` gave its caller (`None` for `false`, the front frame for `true`). */
  datatype Machine<F> = Machine(
    mem: Memory<F>, taking: bool, published: seq<F>, shown: seq<nat>, acquires: seq<Option<F>>)

  function Boot<F>(black: F): Machine<F> {
    Machine(Initial(black), false, [], [], [])
  }

  /** A consumer that is not inside `acquire` cannot swap, and one that is cannot load. */
  predicate Enabled<F>(m: Machine<F>, e: Event<F>) {
    match e
    case Load => !m.taking
    case Swap => m.taking
    case _ => true
  }

  function Step<F>(m: Machine<F>, e: Event<F>): (m': Machine<F>)
    requires |m.mem.slots| == 3 && Enabled(m, e)
    ensures |m'.mem.slots| == 3
  {
    match e
    case Compose(f) => m.(mem := Composed(m.mem, f))
    case Publish => m.(mem := Published(m.mem), published := m.published + [m.mem.slots[At(m.mem.w)]])
    case Load =>
      if IsFresh(m.mem.shared) then m.(taking := true) else m.(acquires := m.acquires + [None])
    case Swap =>
      var mem := Swapped(m.mem);
      m.(mem := mem, taking := false,
         shown := if |m.published| > 0 then m.shown + [|m.published| - 1] else m.shown,
         acquires := m.acquires + [Some(mem.slots[At(mem.r)])])
  }

  /** The invariant that holds between any two accesses. */
  ghost predicate Inv<F>(m: Machine<F>) {
    && Owned(m.mem)
    && (m.taking ==> IsFresh(m.mem.shared))
    && (forall i :: 0 <= i < |m.shown| ==> m.shown[i] < |m.published|)
    && (forall i, j :: 0 <= i < j < |m.shown| ==> m.shown[i] < m.shown[j])
    && (IsFresh(m.mem.shared) ==>
          && |m.published| > 0
          && m.mem.slots[At(m.mem.shared & IDX)] == Last(m.published)
          && (|m.shown| > 0 ==> Last(m.shown) < |m.published| - 1))
    && (!IsFresh(m.mem.shared) && |m.published| > 0 ==>
          |m.shown| > 0 && Last(m.shown) == |m.published| - 1)
    && (|m.shown| > 0 ==> m.mem.slots[At(m.mem.r)] == m.published[Last(m.shown)])
  }

  lemma InvAfterCompose<F>(m: Machine<F>, f: F)
    requires Inv(m) && Enabled(m, Compose(f))
    ensures Inv(Step(m, Compose(f)))
  {
    SwapsKeepOwnership(m.mem);
  }

  lemma InvAfterPublish<F>(m: Machine<F>)
    requires Inv(m) && Enabled(m, Publish)
    ensures Inv(Step(m, Publish))
  {
    SwapsKeepOwnership(m.mem);
  }

  lemma InvAfterLoad<F>(m: Machine<F>)
    requires Inv(m) && Enabled(m, Load)
    ensures Inv(Step(m, Load))
  {
    SwapsKeepOwnership(m.mem);
  }

  lemma InvAfterSwap<F>(m: Machine<F>)
    requires Inv(m) && Enabled(m, Swap)
    ensures Inv(Step(m, Swap))
  {
    SwapsKeepOwnership(m.mem);
  }

  lemma InvStep<F>(m: Machine<F>, e: Event<F>)
    requires Inv(m) && Enabled(m, e)
    ensures Inv(Step(m, e))
  {
    match e {
      case Compose(f) => InvAfterCompose(m, f);
      case Publish => InvAfterPublish(m);
      case Load => InvAfterLoad(m);
      case Swap => InvAfterSwap(m);
    }
  }

  /** The machine after a run, or `None` when the run asks a core for an access it cannot make. */
  function Run<F>(black: F, es: seq<Event<F>>): (m: Option<Machine<F>>)
    ensures m.Some? ==> |m.value.mem.slots| == 3
  {
    if es == [] then Some(Boot(black))
    else
      match Run(black, es[..|es| - 1])
      case None => None
      case Some(m) => if Enabled(m, Last(es)) then Some(Step(m, Last(es))) else None
  }

  lemma {:induction false} InvRun<F>(black: F, es: seq<Event<F>>)
    requires Run(black, es).Some?
    ensures Inv(Run(black, es).value)
  {
    if es != [] {
      InvRun(black, es[..|es| - 1]);
      InvStep(Run(black, es[..|es| - 1]).value, Last(es));
    }
  }

  // -------------------------------------------------------------------------
  // What the interleavings guarantee
  // -------------------------------------------------------------------------

  /** The three indices are always the three slots, so the slot the consumer shows is never one
      the producer can write, and no access but the consumer's own swap changes the frame shown. */
  lemma FrontIsNeverWritten<F>(black: F, es: seq<Event<F>>, e: Event<F>)
    requires Run(black, es + [e]).Some?
    ensures Run(black, es).Some?
    ensures
      var m, m' := Run(black, es).value, Run(black, es + [e]).value;
      && {At(m.mem.w), At(m.mem.r), At(m.mem.shared & IDX)} == {0, 1, 2}
      && (!e.Swap? ==> m'.mem.r == m.mem.r && m'.mem.slots[At(m'.mem.r)] == m.mem.slots[At(m.mem.r)])
  {
    assert (es + [e])[..|es + [e]| - 1] == es;
    InvRun(black, es);
    SwapsKeepOwnership(Run(black, es).value.mem);
  }

  lemma SwapIsNewest<F>(m: Machine<F>)
    requires Inv(m) && Enabled(m, Swap)
    ensures
      var m' := Step(m, Swap);
      && |m.published| > 0
      && m'.mem.slots[At(m'.mem.r)] == Last(m.published)
      && m'.acquires == m.acquires + [Some(Last(m.published))]
      && m'.shown == m.shown + [|m.published| - 1]
      && forall i :: 0 <= i < |m.shown| ==> m.shown[i] < |m.published| - 1
  {
    SwapsKeepOwnership(m.mem);
    hide Owned;
    forall i | 0 <= i < |m.shown|
      ensures m.shown[i] < |m.published| - 1
    {
      assert m.shown[i] <= Last(m.shown);
    }
  }

  /** A `true` from `acquire` is the newest publish at the swap, whatever was published after the
      load, and its number is above every number acquired before. */
  lemma AcquireIsNewest<F>(black: F, es: seq<Event<F>>)
    requires Run(black, es + [Swap]).Some?
    ensures Run(black, es).Some?
    ensures
      var m, m' := Run(black, es).value, Run(black, es + [Swap]).value;
      && |m.published| > 0
      && m'.mem.slots[At(m'.mem.r)] == Last(m.published)
      && m'.acquires == m.acquires + [Some(Last(m.published))]
      && m'.shown == m.shown + [|m.published| - 1]
      && forall i :: 0 <= i < |m.shown| ==> m.shown[i] < |m.published| - 1
  {
    hide Inv, Step;
    assert (es + [Event<F>.Swap])[..|es + [Event<F>.Swap]| - 1] == es;
    InvRun(black, es);
    SwapIsNewest(Run(black, es).value);
  }

  /** From every point of every run, a frame that is drawn and published and then acquired is the one that is shown. */
  lemma NewFrameIsShown<F>(black: F, es: seq<Event<F>>, f: F)
    requires Run(black, es).Some? && !Run(black, es).value.taking
    ensures
      var end := Run(black, es + [Compose(f)] + [Publish] + [Load] + [Swap]);
      end.Some? && end.value.mem.slots[At(end.value.mem.r)] == f && Last(end.value.acquires) == Some(f)
  {
    hide Inv, Owned;
    InvRun(black, es);
    var composed := es + [Compose(f)];
    var published := composed + [Event<F>.Publish];
    var loaded := published + [Event<F>.Load];
    assert composed[..|es|] == es && published[..|composed|] == composed && loaded[..|published|] == published;
    var m := Run(black, composed).value;
    InvRun(black, composed);
    OwnedInInv(m);
    SwapsKeepOwnership(m.mem);
    assert Last(Run(black, published).value.published) == f;
    assert (loaded + [Event<F>.Swap])[..|loaded|] == loaded;
    AcquireIsNewest(black, loaded);
  }

  lemma OwnedInInv<F>(m: Machine<F>)
    requires Inv(m)
    ensures Owned(m.mem)
  {
  }

  /** Publish number `k` is the one waiting in the shared word. */
  predicate Pending<F>(m: Machine<F>, k: nat) {
    IsFresh(m.mem.shared) && k == |m.published| - 1
  }

  /** A later publish took its place before the consumer looked. */
  ghost predicate Superseded<F>(m: Machine<F>, k: nat) {
    k !in m.shown && k < |m.published| - 1
  }

  /** Every frame ever published has exactly one fate: shown once, superseded or pending. */
  lemma EveryPublishHasOneFate<F>(black: F, es: seq<Event<F>>, k: nat)
    requires Run(black, es).Some? && k < |Run(black, es).value.published|
    ensures
      var m := Run(black, es).value;
      && (k in m.shown || Superseded(m, k) || Pending(m, k))
      && !(k in m.shown && Superseded(m, k))
      && !(k in m.shown && Pending(m, k))
      && !(Superseded(m, k) && Pending(m, k))
      && multiset(m.shown)[k] <= 1
  {
    var m := Run(black, es).value;
    InvRun(black, es);
    IncreasingIsOnce(m.shown, k);
    if IsFresh(m.mem.shared) {
      forall i | 0 <= i < |m.shown|
        ensures m.shown[i] < |m.published| - 1
      {
        assert m.shown[i] <= Last(m.shown);
      }
    }
  }

  lemma {:induction false} IncreasingIsOnce(s: seq<nat>, k: nat)
    requires forall i, j :: 0 <= i < j < |s| ==> s[i] < s[j]
    ensures multiset(s)[k] <= 1
  {
    if s != [] {
      var rest := s[..|s| - 1];
      assert s == rest + [Last(s)];
      IncreasingIsOnce(rest, k);
      assert Last(s) !in rest;
    }
  }

  // -------------------------------------------------------------------------
  // Refinement: a newest-value register
  // -------------------------------------------------------------------------

  /** The sequential object a caller may think in: the newest value not taken yet, if any. */
  datatype Register<F> = Register(waiting: Option<F>, answers: seq<Option<F>>)

  datatype Call<F> = Put(f: F) | Get

  function Apply<F>(g: Register<F>, c: Call<F>): Register<F> {
    match c
    case Put(f) => g.(waiting := Some(f))
    case Get => Register(None, g.answers + [g.waiting])
  }

  function ApplyAll<F>(cs: seq<Call<F>>): Register<F> {
    if cs == [] then Register(None, []) else Apply(ApplyAll(cs[..|cs| - 1]), Last(cs))
  }

  /** The call that takes effect at an access: a publish at its swap, a `true` acquire at its swap,
      a `false` acquire at its load. Composing, and a load that finds a frame, are no call's effect. */
  function Effect<F>(m: Machine<F>, e: Event<F>): Option<Call<F>>
    requires |m.mem.slots| == 3
  {
    match e
    case Compose(_) => None
    case Publish => Some(Put(m.mem.slots[At(m.mem.w)]))
    case Load => if IsFresh(m.mem.shared) then None else Some(Get)
    case Swap => Some(Get)
  }

  function Linearised<F>(black: F, es: seq<Event<F>>): seq<Call<F>>
    requires Run(black, es).Some?
  {
    if es == [] then []
    else
      var before := es[..|es| - 1];
      match Effect(Run(black, before).value, Last(es))
      case None => Linearised(black, before)
      case Some(c) => Linearised(black, before) + [c]
  }

  function Abstraction<F>(m: Machine<F>): Register<F>
    requires |m.mem.slots| == 3
  {
    Register(if IsFresh(m.mem.shared) then Some(m.mem.slots[At(m.mem.shared & IDX)]) else None, m.acquires)
  }

  lemma StepRefines<F>(m: Machine<F>, e: Event<F>)
    requires Inv(m) && Enabled(m, e)
    ensures Abstraction(Step(m, e)) ==
      match Effect(m, e)
      case None => Abstraction(m)
      case Some(c) => Apply(Abstraction(m), c)
  {
    match e {
      case Compose(f) => ComposeRefines(m, f);
      case Publish => PublishRefines(m);
      case Load => LoadRefines(m);
      case Swap => SwapRefines(m);
    }
  }

  lemma ComposeRefines<F>(m: Machine<F>, f: F)
    requires Inv(m)
    ensures Abstraction(Step(m, Compose(f))) == Abstraction(m)
  {
  }

  lemma LoadRefines<F>(m: Machine<F>)
    requires Inv(m) && !m.taking
    ensures Abstraction(Step(m, Load)) ==
      if IsFresh(m.mem.shared) then Abstraction(m) else Apply(Abstraction(m), Get)
  {
  }

  lemma PublishRefines<F>(m: Machine<F>)
    requires Inv(m)
    ensures Abstraction(Step(m, Publish)) == Apply(Abstraction(m), Put(m.mem.slots[At(m.mem.w)]))
  {
    SwapsKeepOwnership(m.mem);
  }

  lemma SwapRefines<F>(m: Machine<F>)
    requires Inv(m) && m.taking
    ensures Abstraction(Step(m, Swap)) == Apply(Abstraction(m), Get)
  {
    SwapsKeepOwnership(m.mem);
  }

  /** Under every interleaving, publishes between a load and its swap included, the answers
      `acquire` gives are those of the sequential register, each call taking effect at one of its
      own accesses; and what is waiting in the shared word is what is waiting in the register. */
  lemma {:induction false} RefinesNewestValueRegister<F>(black: F, es: seq<Event<F>>)
    requires Run(black, es).Some?
    ensures Abstraction(Run(black, es).value) == ApplyAll(Linearised(black, es))
    ensures Run(black, es).value.acquires == ApplyAll(Linearised(black, es)).answers
  {
    if es != [] {
      var before := es[..|es| - 1];
      RefinesNewestValueRegister(black, before);
      InvRun(black, before);
      StepRefines(Run(black, before).value, Last(es));
      var calls := Linearised(black, es);
      if Effect(Run(black, before).value, Last(es)).Some? {
        assert calls[..|calls| - 1] == Linearised(black, before);
      }
    }
  }
}
