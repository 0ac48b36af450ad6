/** The settings write-behind cache: handlers change a live value and leave a dirty bit, one task copies
    the value to flash once it has been quiet.

    Any number of handlers may be between their three steps (store the value, set the bit, signal)
    while the task is anywhere in its loop. */
module Settings {
  import opened Common
  import opened Debounce

  type Value = int

  type Values = s: seq<Value> | |s| == FIELDS witness [0, 0, 0]

  /** Where `store_task` is. `Asleep` has no deadline; `Dozing` has one. */
  datatype Pc =
    | Deciding
    | Asleep
    | Dozing(until: nat)
    | Swapping
    | Noting(bits: set<Field>)
    | Draining
    | Reading(field: Field)
    | Writing(field: Field, v: Value)

  /** `toOr` are the handlers that have stored a value and not yet set its bit, `toSignal` how many
      have set the bit and not yet signalled. `failed` are the fields whose last write failed. */
  datatype State = State(
    live: Values, flash: Values,
    toOr: multiset<Field>, dirty: set<Field>, toSignal: nat, wake: bool,
    timers: Pending, pc: Pc, now: nat, failed: set<Field>)

  datatype Event =
    | Set(field: Field, v: Value)
    | Or(field: Field)
    | Signal
    | Tick(ms: nat)
    | Timeout
    | Task
    | WriteFails

  function Boot(stored: Values): State {
    State(stored, stored, multiset{}, {}, 0, false, Nothing(), Deciding, 0, {})
  }

  function Noted(p: Pending, bits: set<Field>, now: nat): (r: Pending)
    ensures forall f: Field :: r[f] == if f in bits then Some(now) else p[f]
  {
    [ if NAME in bits then Some(now) else p[NAME],
      if BRIGHTNESS in bits then Some(now) else p[BRIGHTNESS],
      if IDLE_MODE in bits then Some(now) else p[IDLE_MODE] ]
  }

  /** The task's next step, if it can take one. */
  function TaskStep(s: State): Option<State> {
    match s.pc
    case Deciding =>
      var ms := Shortest(s.timers, FIELDS, s.now);
      Some(s.(pc := if ms.None? then Asleep else if ms.value == 0 then Swapping else Dozing(s.now + ms.value)))
    case Asleep => if s.wake then Some(s.(wake := false, pc := Swapping)) else None
    case Dozing(_) => if s.wake then Some(s.(wake := false, pc := Swapping)) else None
    case Swapping => Some(s.(dirty := {}, pc := Noting(s.dirty)))
    case Noting(bits) => Some(s.(timers := Noted(s.timers, bits, s.now), pc := Draining))
    case Draining =>
      var due := FirstQuiet(s.timers, 0, s.now);
      if due.None? then Some(s.(pc := Deciding))
      else Some(s.(timers := s.timers[due.value := None], pc := Reading(due.value)))
    case Reading(f) => Some(s.(pc := Writing(f, s.live[f])))
    case Writing(f, v) => Some(s.(flash := s.flash[f := v], failed := s.failed - {f}, pc := Draining))
  }

  function Step(s: State, e: Event): Option<State> {
    match e
    case Set(f, v) => Some(s.(live := s.live[f := v], toOr := s.toOr + multiset{f}))
    case Or(f) =>
      if f in s.toOr
      then Some(s.(toOr := s.toOr - multiset{f}, dirty := s.dirty + {f}, toSignal := s.toSignal + 1))
      else None
    case Signal => if s.toSignal > 0 then Some(s.(toSignal := s.toSignal - 1, wake := true)) else None
    case Tick(ms) => Some(s.(now := s.now + ms))
    case Timeout => if s.pc.Dozing? && s.pc.until <= s.now then Some(s.(pc := Swapping)) else None
    case Task => TaskStep(s)
    case WriteFails =>
      if s.pc.Writing? then Some(s.(failed := s.failed + {s.pc.field}, pc := Draining)) else None
  }

  function Run(stored: Values, es: seq<Event>): Option<State> {
    if es == [] then Some(Boot(stored))
    else
      var s := Run(stored, es[..|es| - 1]);
      if s.None? then None else Step(s.value, Last(es))
  }

  // -------------------------------------------------------------------------
  // The invariant
  // -------------------------------------------------------------------------

  /** Someone is on the way with this field's latest value. */
  predicate Covered(s: State, f: Field) {
    || f in s.toOr
    || f in s.dirty
    || (s.pc.Noting? && f in s.pc.bits)
    || s.timers[f].Some?
    || s.pc == Reading(f)
    || s.pc == Writing(f, s.live[f])
  }

  predicate Kept(s: State, f: Field) {
    s.flash[f] == s.live[f] || Covered(s, f) || f in s.failed
  }

  /** A bit that is set will be swapped out. */
  predicate BitsHaveAWake(s: State) {
    s.dirty != {} ==> s.wake || s.toSignal > 0 || s.pc.Swapping?
  }

  /** The task only sleeps without a deadline when no timer is running, and otherwise wakes when the
      first of them is due. */
  predicate SleepsRight(s: State) {
    && (forall f: Field :: s.timers[f].Some? ==> s.timers[f].value <= s.now)
    && (s.pc.Asleep? ==> s.timers == Nothing())
    && (s.pc.Dozing? ==>
          && (forall f: Field :: s.timers[f].Some? ==> s.pc.until <= s.timers[f].value + QUIET_MS)
          && exists f: Field :: s.timers[f].Some? && s.pc.until == s.timers[f].value + QUIET_MS)
  }

  /** The value being written is the latest one, or a later one has left its mark. */
  predicate WritesRight(s: State) {
    s.pc.Writing? ==>
      var f := s.pc.field;
      s.pc.v == s.live[f] || f in s.toOr || f in s.dirty || s.timers[f].Some?
  }

  predicate Inv(s: State) {
    (forall f: Field :: Kept(s, f)) && BitsHaveAWake(s) && SleepsRight(s) && WritesRight(s)
  }

  lemma HandlersKeepInv(s: State, e: Event)
    requires Inv(s) && (e.Set? || e.Or? || e.Signal? || e.Tick? || e.Timeout?) && Step(s, e).Some?
    ensures Inv(Step(s, e).value)
  {
    var t := Step(s, e).value;
    forall f: Field ensures Kept(t, f) {
      assert Kept(s, f);
    }
  }

  lemma DecidingKeepsInv(s: State)
    requires Inv(s) && s.pc.Deciding?
    ensures Inv(TaskStep(s).value)
  {
    var t := TaskStep(s).value;
    forall f: Field ensures Kept(t, f) {
      assert Kept(s, f);
    }
    var ms := Shortest(s.timers, FIELDS, s.now);
    if ms.None? {
      assert s.timers == Nothing();
    } else if ms.value != 0 {
      var g: Field :| s.timers[g].Some? && ms.value == Left(s.timers[g].value, s.now);
      assert t.pc.until == t.timers[g].value + QUIET_MS;
      forall f: Field | t.timers[f].Some? ensures t.pc.until <= t.timers[f].value + QUIET_MS {
        assert ms.value <= Left(s.timers[f].value, s.now);
      }
    }
  }

  lemma TaskKeepsField(s: State, f: Field)
    requires Inv(s) && !s.pc.Deciding? && TaskStep(s).Some?
    ensures Kept(TaskStep(s).value, f)
  {
    hide Shortest, SleepsRight, BitsHaveAWake, Noted, FirstQuiet;
    assert Kept(s, f);
  }

  lemma TaskKeepsInv(s: State)
    requires Inv(s) && !s.pc.Deciding? && TaskStep(s).Some?
    ensures Inv(TaskStep(s).value)
  {
    hide Shortest, Kept, Noted, FirstQuiet;
    forall f: Field ensures Kept(TaskStep(s).value, f) {
      TaskKeepsField(s, f);
    }
  }

  lemma FailureKeepsInv(s: State)
    requires Inv(s) && s.pc.Writing?
    ensures Inv(Step(s, WriteFails).value)
  {
    var t := Step(s, WriteFails).value;
    forall f: Field ensures Kept(t, f) {
      assert Kept(s, f);
    }
  }

  lemma StepKeepsInv(s: State, e: Event)
    requires Inv(s) && Step(s, e).Some?
    ensures Inv(Step(s, e).value)
  {
    hide Inv, TaskStep;
    if e.Task? {
      if s.pc.Deciding? { DecidingKeepsInv(s); } else { TaskKeepsInv(s); }
    } else if e.WriteFails? {
      FailureKeepsInv(s);
    } else {
      HandlersKeepInv(s, e);
    }
  }

  lemma {:induction false} InvRun(stored: Values, es: seq<Event>)
    requires Run(stored, es).Some?
    ensures Inv(Run(stored, es).value)
  {
    hide Inv, Step;
    if es != [] {
      var before := es[..|es| - 1];
      InvRun(stored, before);
      StepKeepsInv(Run(stored, before).value, Last(es));
    } else {
      BootInv(stored);
    }
  }

  lemma BootInv(stored: Values)
    ensures Inv(Boot(stored))
  {
  }

  // -------------------------------------------------------------------------
  // Nothing is lost
  // -------------------------------------------------------------------------

  /** Under every interleaving: a change that is not in flash is on its way, or its last write failed. */
  lemma NeverLost(stored: Values, es: seq<Event>, f: Field)
    requires Run(stored, es).Some?
    ensures
      var s := Run(stored, es).value;
      s.flash[f] == s.live[f] || Covered(s, f) || f in s.failed
  {
    hide Run;
    InvRun(stored, es);
    assert Kept(Run(stored, es).value, f);
  }

  /** Nothing is left to happen until somebody changes a setting. */
  predicate AtRest(s: State) {
    s.pc.Asleep? && !s.wake && s.toOr == multiset{} && s.toSignal == 0
  }

  /** The task never sleeps for ever over a bit: when it sleeps without a deadline and nobody is about
      to wake it, there is no bit and no timer. */
  lemma NeverSleepsOverABit(stored: Values, es: seq<Event>)
    requires Run(stored, es).Some?
    ensures
      var s := Run(stored, es).value;
      s.pc.Asleep? && !s.wake && s.toSignal == 0 ==> s.dirty == {} && s.timers == Nothing()
  {
    hide Run;
    InvRun(stored, es);
  }

  /** When all is quiet flash holds the last value of every field whose last write did not fail. */
  lemma AtRestFlashIsLive(stored: Values, es: seq<Event>, f: Field)
    requires Run(stored, es).Some? && AtRest(Run(stored, es).value)
    ensures
      var s := Run(stored, es).value;
      s.flash[f] == s.live[f] || f in s.failed
  {
    hide Run;
    InvRun(stored, es);
    NeverSleepsOverABit(stored, es);
    assert Kept(Run(stored, es).value, f);
  }

  /** With a timer running the task is never asleep without a deadline, and its deadline is never later
      than the end of any field's quiet time. */
  lemma NeverOversleeps(stored: Values, es: seq<Event>, f: Field)
    requires Run(stored, es).Some? && Run(stored, es).value.timers[f].Some?
    ensures
      var s := Run(stored, es).value;
      !s.pc.Asleep? && (s.pc.Dozing? ==> s.pc.until <= s.timers[f].value + 3000)
  {
    hide Run;
    InvRun(stored, es);
  }

  // -------------------------------------------------------------------------
  // Everything gets there
  // -------------------------------------------------------------------------

  /** What happens next if no setting is changed, no write fails, and time passes only while the task
      sleeps. */
  function NextEvent(s: State): Event {
    if s.toOr != multiset{} then Or(if NAME in s.toOr then NAME else if BRIGHTNESS in s.toOr then BRIGHTNESS else IDLE_MODE)
    else if s.toSignal > 0 then Signal
    else if s.pc.Dozing? && !s.wake then if s.pc.until <= s.now then Timeout else Tick(s.pc.until - s.now)
    else Task
  }

  function Running(p: Pending): nat {
    (if p[NAME].Some? then 1 else 0) + (if p[BRIGHTNESS].Some? then 1 else 0) + if p[IDLE_MODE].Some? then 1 else 0
  }

  function Wakes(s: State): nat {
    if s.wake then 1 else 0
  }

  function Bits(s: State): nat {
    (if s.dirty != {} then 2 else 0) + if s.pc.Noting? && s.pc.bits != {} then 1 else 0
  }

  predicate SomethingDue(s: State) {
    FirstQuiet(s.timers, 0, s.now).Some?
  }

  /** How far the task is from handing out a field or going to sleep. */
  function Distance(s: State): nat {
    match s.pc
    case Reading(_) => 11
    case Writing(_, _) => 10
    case Swapping => if SomethingDue(s) then 3 else 9
    case Noting(_) => if SomethingDue(s) then 2 else 8
    case Draining => if SomethingDue(s) then 1 else 7
    case Deciding => 6
    case Dozing(until) => if s.now < until then 5 else 4
    case Asleep => 0
  }

  predicate Nearer(t: State, s: State) {
    || |t.toOr| < |s.toOr|
    || (|t.toOr| == |s.toOr|
        && (|| t.toSignal < s.toSignal
            || (t.toSignal == s.toSignal
                && (|| Wakes(t) < Wakes(s)
                    || (Wakes(t) == Wakes(s)
                        && (|| Bits(t) < Bits(s)
                            || (Bits(t) == Bits(s)
                                && (|| Running(t.timers) < Running(s.timers)
                                    || (Running(t.timers) == Running(s.timers) && Distance(t) < Distance(s))))))))))
  }

  lemma NextIsNearer(s: State)
    requires Inv(s) && !AtRest(s)
    ensures
      var t := Step(s, NextEvent(s));
      t.Some? && Nearer(t.value, s) && t.value.live == s.live && (s.failed == {} ==> t.value.failed == {})
  {
    hide Inv, Nearer, Distance, TaskStep, Running, Bits;
    if s.toOr != multiset{} {
      OrIsNearer(s);
    } else if s.toSignal > 0 {
      assert Nearer(Step(s, Signal).value, s) by { FewerSignals(s); }
    } else if s.pc.Dozing? && !s.wake {
      DozingIsNearer(s);
    } else if s.pc.Deciding? || s.pc.Asleep? || s.pc.Dozing? {
      WakingIsNearer(s);
    } else {
      WorkingIsNearer(s);
    }
  }

  lemma OrIsNearer(s: State)
    requires s.toOr != multiset{}
    ensures
      var t := Step(s, NextEvent(s));
      t.Some? && Nearer(t.value, s) && t.value.live == s.live && t.value.failed == s.failed
  {
    hide Bits, Running, Distance;
    var f: Field :| f in s.toOr;
    assert f == NAME || f == BRIGHTNESS || f == IDLE_MODE;
  }

  lemma FewerSignals(s: State)
    requires s.toSignal > 0
    ensures Nearer(Step(s, Signal).value, s)
  {
    hide Bits, Running, Distance;
  }

  lemma DozingIsNearer(s: State)
    requires Inv(s) && s.pc.Dozing? && !s.wake && s.toOr == multiset{} && s.toSignal == 0
    ensures
      var t := Step(s, NextEvent(s));
      t.Some? && Nearer(t.value, s) && t.value.live == s.live && t.value.failed == s.failed
  {
    hide Kept, WritesRight, FirstQuiet;
    if s.pc.until <= s.now {
      var f: Field :| s.timers[f].Some? && s.pc.until == s.timers[f].value + QUIET_MS;
      assert Quiet(s.timers, f, s.now);
    }
  }

  lemma WakingIsNearer(s: State)
    requires Inv(s) && !AtRest(s) && s.toOr == multiset{} && s.toSignal == 0
    requires s.pc.Deciding? || s.pc.Asleep? || (s.pc.Dozing? && s.wake)
    ensures
      var t := TaskStep(s);
      t.Some? && Nearer(t.value, s) && t.value.live == s.live && t.value.failed == s.failed
  {
    hide Kept, WritesRight, FirstQuiet, Shortest, Running;
    ZeroExactlyWhenDue(s.timers, s.now);
  }

  lemma WorkingIsNearer(s: State)
    requires Inv(s) && !s.pc.Deciding? && !s.pc.Asleep? && !s.pc.Dozing?
    requires s.toOr == multiset{} && s.toSignal == 0
    ensures
      var t := TaskStep(s);
      t.Some? && Nearer(t.value, s) && t.value.live == s.live && (s.failed == {} ==> t.value.failed == {})
  {
    hide Kept, WritesRight, FirstQuiet, SleepsRight;
    if s.pc.Draining? {
      HandingOutIsNearer(s);
    } else if s.pc.Swapping? {
      assert s.dirty == {} ==> Bits(TaskStep(s).value) == 0;
    } else if s.pc.Noting? {
      assert Noted(s.timers, {}, s.now) == s.timers;
    }
  }

  lemma HandingOutIsNearer(s: State)
    requires s.pc.Draining?
    ensures Nearer(TaskStep(s).value, s)
  {
    hide FirstQuiet;
    if SomethingDue(s) {
      var f := FirstQuiet(s.timers, 0, s.now).value;
      assert f == NAME || f == BRIGHTNESS || f == IDLE_MODE;
    }
  }

  function Steps(s: State, es: seq<Event>): Option<State>
    decreases es
  {
    if es == [] then Some(s)
    else if Step(s, es[0]).None? then None
    else Steps(Step(s, es[0]).value, es[1..])
  }

  /** From any state the invariant allows, the handlers and the task alone come to rest. */
  lemma {:induction false} ComesToRest(s: State) returns (es: seq<Event>)
    requires Inv(s)
    ensures Steps(s, es).Some?
    ensures
      var t := Steps(s, es).value;
      Inv(t) && AtRest(t) && t.live == s.live && (s.failed == {} ==> t.failed == {})
    decreases |s.toOr|, s.toSignal, Wakes(s), Bits(s), Running(s.timers), Distance(s)
  {
    hide Inv, AtRest, NextEvent, Step, Bits, Running;
    if AtRest(s) {
      es := [];
    } else {
      NextIsNearer(s);
      StepKeepsInv(s, NextEvent(s));
      var t := Step(s, NextEvent(s)).value;
      assert Nearer(t, s);
      var rest := ComesToRest(t);
      es := [NextEvent(s)] + rest;
      assert es[1..] == rest;
    }
  }

  /** So whatever has happened, if no write has failed and none fails from here, what is set now gets
      to flash. */
  lemma EverythingReachesFlash(stored: Values, es: seq<Event>) returns (more: seq<Event>)
    requires Run(stored, es).Some? && Run(stored, es).value.failed == {}
    ensures
      var t := Steps(Run(stored, es).value, more);
      t.Some? && AtRest(t.value) && t.value.flash == t.value.live == Run(stored, es).value.live
  {
    hide Run, Steps, Step;
    InvRun(stored, es);
    more := ComesToRest(Run(stored, es).value);
    var t := Steps(Run(stored, es).value, more).value;
    forall f: Field ensures t.flash[f] == t.live[f] {
      assert Kept(t, f);
    }
    assert t.flash == t.live;
  }

  /** A setting can be changed at any point of any run, and the new value gets to flash; nothing else is lost for it. */
  lemma EveryChangeReachesFlash(stored: Values, es: seq<Event>, f: Field, v: Value) returns (more: seq<Event>)
    requires Run(stored, es).Some? && Run(stored, es).value.failed == {}
    ensures Run(stored, es + [Set(f, v)]).Some?
    ensures
      var t := Steps(Run(stored, es + [Set(f, v)]).value, more);
      t.Some? && AtRest(t.value) && t.value.flash == t.value.live == Run(stored, es).value.live[f := v]
  {
    hide Steps, AtRest;
    assert (es + [Set(f, v)])[..|es + [Set(f, v)]| - 1] == es;
    more := EverythingReachesFlash(stored, es + [Set(f, v)]);
  }

  /** The task sleeps until it is woken, and no longer than its deadline if it has one. */
  lemma SleepsUntilWoken(stored: Values, es: seq<Event>)
    requires Run(stored, es).Some?
    ensures
      var s := Run(stored, es).value;
      && (s.pc.Asleep? || s.pc.Dozing? ==> (Run(stored, es + [Task]).Some? <==> s.wake))
      && (Run(stored, es + [Timeout]).Some? <==> s.pc.Dozing? && s.now >= s.pc.until)
  {
    assert (es + [Event.Task])[..|es + [Event.Task]| - 1] == es;
    assert (es + [Timeout])[..|es + [Timeout]| - 1] == es;
  }

  // -------------------------------------------------------------------------
  // The code
  // -------------------------------------------------------------------------

  class Cache {
    var live: Values
    var flash: Values
    var dirty: set<Field>
    var wake: bool
    const timers: Timers
    ghost var failed: set<Field>

    ghost predicate Valid()
    {
      timers.Valid()
    }

    /** The machine's state, given where the task and the handlers are. */
    ghost function At(pc: Pc, toOr: multiset<Field>, toSignal: nat, now: nat): State
      requires Valid()
      reads this, timers.changedAt
    {
      State(live, flash, toOr, dirty, toSignal, wake, timers.Contents(), pc, now, failed)
    }

    constructor (stored: Values)
      ensures Valid() && At(Deciding, multiset{}, 0, 0) == Boot(stored)
    {
      live, flash, dirty, wake, failed := stored, stored, {}, false, {};
      timers := new Timers();
    }

    method Change(f: Field, v: Value, ghost pc: Pc, ghost toOr: multiset<Field>, ghost toSignal: nat, ghost now: nat)
      requires Valid()
      modifies this`live
      ensures Step(old(At(pc, toOr, toSignal, now)), Set(f, v)) == Some(At(pc, toOr + multiset{f}, toSignal, now))
    {
      live := live[f := v];
    }

    /** `note_dirty`: the bit, then the signal. */
    method NoteDirty(f: Field, ghost pc: Pc, ghost toOr: multiset<Field>, ghost toSignal: nat, ghost now: nat)
      requires Valid() && f in toOr
      modifies this`dirty, this`wake
      ensures
        Steps(old(At(pc, toOr, toSignal, now)), [Or(f), Signal])
        == Some(At(pc, toOr - multiset{f}, toSignal, now))
    {
      ghost var s := At(pc, toOr, toSignal, now);
      dirty := dirty + {f};
      wake := true;
      TwoSteps(s, Or(f), Signal);
    }

    /** Decides how long to sleep. */
    method Decide(now: nat, ghost toOr: multiset<Field>, ghost toSignal: nat) returns (ms: Option<nat>)
      requires Valid()
      ensures
        TaskStep(At(Deciding, toOr, toSignal, now))
        == Some(At(if ms.None? then Asleep else if ms.value == 0 then Swapping else Dozing(now + ms.value), toOr, toSignal, now))
    {
      ms := timers.NextDueInMs(now);
    }

    /** Takes all the bits and starts their fields' timers. */
    method TakeBits(now: nat, ghost toOr: multiset<Field>, ghost toSignal: nat)
      requires Valid()
      modifies this`dirty, timers.changedAt
      ensures
        Steps(old(At(Swapping, toOr, toSignal, now)), [Task, Task]) == Some(At(Draining, toOr, toSignal, now))
    {
      ghost var s := At(Swapping, toOr, toSignal, now);
      var bits := dirty;
      dirty := {};
      if NAME in bits {
        timers.NoteChange(NAME, now);
      }
      if BRIGHTNESS in bits {
        timers.NoteChange(BRIGHTNESS, now);
      }
      if IDLE_MODE in bits {
        timers.NoteChange(IDLE_MODE, now);
      }
      assert timers.Contents() == Noted(s.timers, bits, now);
      TwoSteps(s, Task, Task);
    }

    /** One turn of the loop that commits what is due; `ok` is what the flash says to the write. */
    method CommitOne(now: nat, ok: bool, ghost toOr: multiset<Field>, ghost toSignal: nat) returns (more: bool)
      requires Valid()
      modifies this`flash, this`failed, timers.changedAt
      ensures
        more ==>
          Steps(old(At(Draining, toOr, toSignal, now)), [Task, Task, if ok then Task else WriteFails])
          == Some(At(Draining, toOr, toSignal, now))
      ensures
        !more ==> Step(old(At(Draining, toOr, toSignal, now)), Task) == Some(At(Deciding, toOr, toSignal, now))
    {
      ghost var s := At(Draining, toOr, toSignal, now);
      var due := timers.Due(now);
      if due.None? {
        return false;
      }
      var f := due.value;
      var v := live[f];
      if ok {
        flash := flash[f := v];
        failed := failed - {f};
      } else {
        failed := failed + {f};
      }
      ThreeSteps(s, Task, Task, if ok then Task else WriteFails);
      return true;
    }
  }

  lemma TwoSteps(s: State, a: Event, b: Event)
    ensures Step(s, a).Some? ==> Steps(s, [a, b]) == Step(Step(s, a).value, b)
  {
    hide Step;
    assert [a, b][1..] == [b];
    assert [b][1..] == [];
    if Step(s, a).Some? {
      var t := Step(s, a).value;
      assert Steps(t, [b]) == Step(t, b);
    }
  }

  lemma ThreeSteps(s: State, a: Event, b: Event, c: Event)
    ensures Step(s, a).Some? ==> Steps(s, [a, b, c]) == Steps(Step(s, a).value, [b, c])
    ensures Step(s, a).Some? && Step(Step(s, a).value, b).Some? ==>
      Steps(s, [a, b, c]) == Step(Step(Step(s, a).value, b).value, c)
  {
    hide Step;
    assert [a, b, c][1..] == [b, c];
    if Step(s, a).Some? {
      TwoSteps(Step(s, a).value, b, c);
    }
  }
}
