/** What makes a flash erase or program survivable on two cores.

    The flash driver freezes core 1 wherever it is, calls the ROM, and thaws it again. Every lock
    is a spin lock that masks its holder's interrupts. Two of them are shared by both cores: the
    global critical section and the scheduler. The driver's own lock is taken by core 0 only.

    The machine has a switch: `guarded` is the shipped firmware, which holds the critical section
    across park, ROM call and un-park; without it interrupts are masked only inside the ROM call.
    A run is any interleaving of the two cores' steps and of interrupts on core 0. */
module FlashGuard {
  import opened Common

  datatype Lock = Critical | Scheduler | Driver

  /** The locks code on either core may take; `Driver` is private to core 0's flash driver. */
  predicate Shared(l: Lock) {
    l.Critical? || l.Scheduler?
  }

  /** Where core 0's task is. The number counts the sectors of the operation still to do; a range
      erase parks and un-parks around each of them. */
  datatype Task =
    | Resting
    | Spinning(lock: Lock)
    | Holding(lock: Lock)
    | Enter(sectors: nat)
    | Park(sectors: nat)
    | TakeDriver(sectors: nat)
    | Rom(sectors: nat, ticks: nat)
    | DropDriver(sectors: nat)
    | Unpark(sectors: nat)
    | Leave

  /** The interrupt handler on top of core 0's task, if one is running. */
  datatype Handler = Absent | Waiting(lock: Lock) | Inside(lock: Lock)

  /** `romTicks` is how long a ROM call takes; nothing is assumed of it. */
  datatype State = State(
    task: Task, taskHolds: set<Lock>, handler: Handler,
    parked: bool, wants: Option<Lock>, otherHolds: set<Lock>, romTicks: nat)

  function HandlerHolds(s: State): set<Lock> {
    if s.handler.Inside? then {s.handler.lock} else {}
  }

  predicate Free(s: State, l: Lock) {
    l !in s.taskHolds && l !in HandlerHolds(s) && l !in s.otherHolds
  }

  /** Core 0 takes interrupts only while its task holds no lock at all. */
  predicate Masked(s: State) {
    s.taskHolds != {}
  }

  function Rest(romTicks: nat): State {
    State(Resting, {}, Absent, false, None, {}, romTicks)
  }

  // -------------------------------------------------------------------------
  // Steps
  // -------------------------------------------------------------------------

  datatype Event =
    | Begin(sectors: nat)        // core 0's task starts an erase or a program
    | Lock0(lock: Lock)          // core 0's task starts taking a shared lock for itself
    | Task0                      // core 0's task goes on
    | Interrupt(lock: Lock)      // an interrupt fires; its handler will want a shared lock
    | Handler0                   // core 0's handler goes on
    | Lock1(lock: Lock)          // core 1 starts taking a shared lock
    | Take1                      // core 1 gets the lock it wants
    | Drop1(lock: Lock)          // core 1 releases a lock

  predicate TaskCanMove(s: State) {
    && s.handler.Absent?
    && match s.task
       case Resting => false
       case Spinning(l) => Free(s, l)
       case Enter(_) => Free(s, Critical)
       case TakeDriver(_) => Free(s, Driver)
       case _ => true
  }

  function TaskStep(guarded: bool, s: State): State {
    match s.task
    case Resting => s
    case Spinning(l) => s.(task := Holding(l), taskHolds := s.taskHolds + {l})
    case Holding(l) => s.(task := Resting, taskHolds := s.taskHolds - {l})
    case Enter(n) => s.(task := Park(n), taskHolds := s.taskHolds + {Critical})
    case Park(n) => s.(task := TakeDriver(n), parked := true)
    case TakeDriver(n) => s.(task := Rom(n, s.romTicks), taskHolds := s.taskHolds + {Driver})
    case Rom(n, t) => if t > 0 then s.(task := Rom(n, t - 1)) else s.(task := DropDriver(n))
    case DropDriver(n) => s.(task := Unpark(n), taskHolds := s.taskHolds - {Driver})
    case Unpark(n) =>
      s.(parked := false,
         task := if n > 1 then Park(n - 1) else if guarded then Leave else Resting)
    case Leave => s.(task := Resting, taskHolds := s.taskHolds - {Critical})
  }

  predicate Enabled(s: State, e: Event) {
    match e
    case Begin(n) => s.handler.Absent? && s.task.Resting? && n > 0
    case Lock0(l) => s.handler.Absent? && s.task.Resting? && Shared(l)
    case Task0 => TaskCanMove(s)
    case Interrupt(l) => s.handler.Absent? && !Masked(s) && Shared(l)
    case Handler0 => s.handler.Inside? || (s.handler.Waiting? && Free(s, s.handler.lock))
    case Lock1(l) => !s.parked && s.wants.None? && Shared(l) && l !in s.otherHolds
    case Take1 => !s.parked && s.wants.Some? && Free(s, s.wants.value)
    case Drop1(l) => !s.parked && s.wants.None? && l in s.otherHolds
  }

  function Step(guarded: bool, s: State, e: Event): State
    requires Enabled(s, e)
  {
    match e
    case Begin(n) => s.(task := if guarded then Enter(n) else Park(n))
    case Lock0(l) => s.(task := Spinning(l))
    case Task0 => TaskStep(guarded, s)
    case Interrupt(l) => s.(handler := Waiting(l))
    case Handler0 => s.(handler := if s.handler.Inside? then Absent else Inside(s.handler.lock))
    case Lock1(l) => s.(wants := Some(l))
    case Take1 => s.(wants := None, otherHolds := s.otherHolds + {s.wants.value})
    case Drop1(l) => s.(otherHolds := s.otherHolds - {l})
  }

  // -------------------------------------------------------------------------
  // The invariant of every run
  // -------------------------------------------------------------------------

  /** The locks core 0's task holds are a function of where it is. */
  function HeldAt(guarded: bool, t: Task): set<Lock> {
    match t
    case Holding(l) => {l}
    case Rom(_, _) => if guarded then {Critical, Driver} else {Driver}
    case DropDriver(_) => if guarded then {Critical, Driver} else {Driver}
    case Park(_) => if guarded then {Critical} else {}
    case TakeDriver(_) => if guarded then {Critical} else {}
    case Unpark(_) => if guarded then {Critical} else {}
    case Leave => {Critical}
    case _ => {}
  }

  /** Between the park and the un-park. */
  predicate InWindow(t: Task) {
    t.TakeDriver? || t.Rom? || t.DropDriver? || t.Unpark?
  }

  predicate Inv(guarded: bool, s: State) {
    && s.taskHolds == HeldAt(guarded, s.task)
    && (s.parked <==> InWindow(s.task))
    && (s.task.Spinning? || s.task.Holding? ==> Shared(s.task.lock))
    && (s.task.Leave? || s.task.Enter? ==> guarded)
    && (!s.handler.Absent? ==> Shared(s.handler.lock) && !Masked(s))
    && (s.wants.Some? ==> Shared(s.wants.value) && s.wants.value !in s.otherHolds)
    && Driver !in s.otherHolds
    && s.taskHolds !! s.otherHolds
    && HandlerHolds(s) !! s.otherHolds
  }

  lemma InvStep(guarded: bool, s: State, e: Event)
    requires Inv(guarded, s) && Enabled(s, e)
    ensures Inv(guarded, Step(guarded, s, e))
  {
  }

  /** The state after a run, or `None` when the run asks for a step that is not enabled. */
  function Run(guarded: bool, romTicks: nat, es: seq<Event>): Option<State> {
    if es == [] then Some(Rest(romTicks))
    else
      match Run(guarded, romTicks, es[..|es| - 1])
      case None => None
      case Some(s) => if Enabled(s, Last(es)) then Some(Step(guarded, s, Last(es))) else None
  }

  lemma {:induction false} InvRun(guarded: bool, romTicks: nat, es: seq<Event>)
    requires Run(guarded, romTicks, es).Some?
    ensures Inv(guarded, Run(guarded, romTicks, es).value)
  {
    if es != [] {
      InvRun(guarded, romTicks, es[..|es| - 1]);
      InvStep(guarded, Run(guarded, romTicks, es[..|es| - 1]).value, Last(es));
    }
  }

  /** In every run, guarded or not, no lock is held twice: by core 0's task, its handler and core 1 at most one; and
      with core 1 parked core 0's task holds the driver's lock for as long as it is in the ROM. */
  lemma LocksAreExclusive(guarded: bool, romTicks: nat, es: seq<Event>, l: Lock)
    requires Run(guarded, romTicks, es).Some?
    ensures
      var s := Run(guarded, romTicks, es).value;
      && !(l in s.taskHolds && l in s.otherHolds)
      && (s.handler == Inside(l) ==> l !in s.taskHolds && l !in s.otherHolds)
      && (s.task.Rom? ==> s.parked && Driver in s.taskHolds)
  {
    InvRun(guarded, romTicks, es);
  }

  /** An interrupt's handler waits for the lock it wants, has it for one step, and is gone. */
  lemma HandlerComesAndGoes(guarded: bool, romTicks: nat, es: seq<Event>, l: Lock)
    requires Run(guarded, romTicks, es).Some? && Enabled(Run(guarded, romTicks, es).value, Interrupt(l))
    ensures
      var s := Run(guarded, romTicks, es).value;
      var came := es + [Interrupt(l)];
      && Run(guarded, romTicks, came) == Some(s.(handler := Waiting(l)))
      && Run(guarded, romTicks, came + [Handler0]) == (if l in s.otherHolds then None else Some(s.(handler := Inside(l))))
      && (l !in s.otherHolds ==> Run(guarded, romTicks, came + [Handler0] + [Handler0]) == Some(s))
  {
    hide Run, Step, Enabled;
    var s, came := Run(guarded, romTicks, es).value, es + [Interrupt(l)];
    RunExtends(guarded, romTicks, es, Interrupt(l));
    RunExtends(guarded, romTicks, came, Handler0);
    RunExtends(guarded, romTicks, came + [Handler0], Handler0);
    HandlerSteps(guarded, s, l);
  }

  lemma HandlerSteps(guarded: bool, s: State, l: Lock)
    requires Enabled(s, Interrupt(l))
    ensures
      var waiting := Step(guarded, s, Interrupt(l));
      && waiting == s.(handler := Waiting(l)) && (Enabled(waiting, Handler0) <==> l !in s.otherHolds)
      && (l !in s.otherHolds ==>
            var inside := Step(guarded, waiting, Handler0);
            && inside == s.(handler := Inside(l)) && Enabled(inside, Handler0) && Step(guarded, inside, Handler0) == s)
  {
  }

  lemma RunExtends(guarded: bool, romTicks: nat, es: seq<Event>, e: Event)
    ensures Run(guarded, romTicks, es + [e]) ==
      match Run(guarded, romTicks, es)
      case None => None
      case Some(s) => if Enabled(s, e) then Some(Step(guarded, s, e)) else None
  {
    hide Enabled, Step;
    assert (es + [e])[..|es + [e]| - 1] == es;
  }

  // -------------------------------------------------------------------------
  // With the guard
  // -------------------------------------------------------------------------

  /** While core 1 is frozen under the guard, it is outside every critical section, no handler runs
      on core 0, and the one step anything in the system can take is core 0's next step. */
  lemma WindowIsQuiet(romTicks: nat, es: seq<Event>, e: Event)
    requires Run(true, romTicks, es).Some? && Run(true, romTicks, es).value.parked
    ensures var s := Run(true, romTicks, es).value;
      && Critical in s.taskHolds && Critical !in s.otherHolds
      && s.handler.Absent?
      && (Enabled(s, e) <==> e.Task0?)
  {
    InvRun(true, romTicks, es);
  }

  /** Steps of core 0 from here to the un-park. */
  function Distance(s: State): nat {
    match s.task
    case TakeDriver(_) => 4 + s.romTicks
    case Rom(_, t) => 3 + t
    case DropDriver(_) => 2
    case Unpark(_) => 1
    case _ => 0
  }

  /** `k` steps of core 0's task with nothing else moving. */
  function Alone(guarded: bool, s: State, k: nat): State {
    if k == 0 then s else TaskStep(guarded, Alone(guarded, s, k - 1))
  }

  lemma {:induction false} AloneInWindow(s: State, k: nat)
    requires Inv(true, s) && s.parked && k < Distance(s)
    ensures var m := Alone(true, s, k);
      Inv(true, m) && m.parked && TaskCanMove(m) && Distance(m) == Distance(s) - k
  {
    if k > 0 {
      AloneInWindow(s, k - 1);
      InvStep(true, Alone(true, s, k - 1), Task0);
    }
  }

  /** From every reachable state in which core 1 is parked, core 0 alone reaches the un-park: none
      of its steps on the way waits, and the step that un-parks is number `Distance`. */
  lemma GuardedReachesUnpark(romTicks: nat, es: seq<Event>, k: nat)
    requires Run(true, romTicks, es).Some? && Run(true, romTicks, es).value.parked
    ensures var s := Run(true, romTicks, es).value;
      && Distance(s) > 0
      && !Alone(true, s, Distance(s)).parked
      && (k < Distance(s) ==> Alone(true, s, k).parked && TaskCanMove(Alone(true, s, k)))
  {
    var s := Run(true, romTicks, es).value;
    InvRun(true, romTicks, es);
    AloneInWindow(s, Distance(s) - 1);
    if k < Distance(s) {
      AloneInWindow(s, k);
    }
  }

  /** Sectors whose ROM call is still to come. */
  function SectorsLeft(t: Task): nat {
    match t
    case Enter(n) => n
    case Park(n) => n
    case TakeDriver(n) => n
    case Rom(n, _) => n
    case DropDriver(n) => if n > 0 then n - 1 else 0
    case Unpark(n) => if n > 0 then n - 1 else 0
    case _ => 0
  }

  /** The event is the end of a ROM call. */
  predicate EndsRomCall(s: State, e: Event) {
    e.Task0? && s.task.Rom? && s.task.ticks == 0
  }

  /** What goes on if nobody starts anything new. */
  function NextEvent(s: State): Option<Event> {
    if s.handler.Inside? then Some(Handler0)
    else if !s.task.Resting? && !s.task.Spinning? && !s.task.Enter? then Some(Task0)
    else if s.wants.Some? then Some(Take1)
    else if Critical in s.otherHolds then Some(Drop1(Critical))
    else if Scheduler in s.otherHolds then Some(Drop1(Scheduler))
    else if s.handler.Waiting? then Some(Handler0)
    else if !s.task.Resting? then Some(Task0)
    else None
  }

  /** Steps of the task to rest. */
  function TaskLeft(s: State): nat {
    var sector := 6 + s.romTicks;
    match s.task
    case Resting => 0
    case Spinning(_) => 2
    case Holding(_) => 1
    case Enter(n) => 2 + n * sector
    case Park(n) => 1 + n * sector
    case TakeDriver(n) => n * sector
    case Rom(n, t) => (if n > 0 then (n - 1) * sector else 0) + t + 4
    case DropDriver(n) => (if n > 0 then (n - 1) * sector else 0) + 3
    case Unpark(n) => (if n > 0 then (n - 1) * sector else 0) + 2
    case Leave => 1
  }

  function HandlerLeft(h: Handler): nat {
    match h
    case Absent => 0
    case Inside(_) => 1
    case Waiting(_) => 2
  }

  function OtherLeft(s: State): nat {
    (if s.wants.Some? then 2 else 0) + (if Critical in s.otherHolds then 1 else 0)
    + (if Scheduler in s.otherHolds then 1 else 0)
  }

  function AllLeft(s: State): nat {
    TaskLeft(s) + HandlerLeft(s.handler) + OtherLeft(s)
  }

  /** The operation in hand has sectors to do until its last ROM call has ended. */
  predicate Counting(s: State) {
    match s.task
    case Enter(n) => n > 0
    case Park(n) => n > 0
    case TakeDriver(n) => n > 0
    case Rom(n, t) => n > 0 && t <= s.romTicks
    case DropDriver(n) => n > 0
    case Unpark(n) => n > 0
    case _ => true
  }

  lemma SectorIs(n: nat, sector: nat)
    requires n > 0
    ensures n * sector == (n - 1) * sector + sector
  {
  }

  lemma NextEventGetsOn(s: State)
    requires Inv(true, s) && Counting(s)
    ensures NextEvent(s).None? ==> s == Rest(s.romTicks)
    ensures NextEvent(s).Some? ==>
      var e := NextEvent(s).value;
      && Enabled(s, e) && AllLeft(Step(true, s, e)) < AllLeft(s) && Counting(Step(true, s, e))
      && SectorsLeft(Step(true, s, e).task) == SectorsLeft(s.task) - (if EndsRomCall(s, e) then 1 else 0)
      && Step(true, s, e).romTicks == s.romTicks
  {
    hide Inv, Counting, AllLeft, Step, Enabled, Rest;
    NextIsEnabled(s);
    if NextEvent(s).Some? {
      if NextEvent(s).value.Task0? {
        TaskGetsOn(s);
      } else {
        OthersGetOn(s, NextEvent(s).value);
      }
    }
  }

  lemma NextIsEnabled(s: State)
    requires Inv(true, s)
    ensures NextEvent(s).None? ==> s == Rest(s.romTicks)
    ensures NextEvent(s).Some? ==> Enabled(s, NextEvent(s).value)
    ensures NextEvent(s) == Some(Task0) ==> !s.task.Resting?
  {
    assert s.otherHolds == {} || Critical in s.otherHolds || Scheduler in s.otherHolds by {
      if s.otherHolds != {} {
        var l :| l in s.otherHolds;
        assert l.Critical? || l.Scheduler? || l.Driver?;
      }
    }
  }

  lemma TaskGetsOn(s: State)
    requires Inv(true, s) && Counting(s) && Enabled(s, Task0) && !s.task.Resting?
    ensures
      var t := Step(true, s, Task0);
      && AllLeft(t) < AllLeft(s) && Counting(t) && t.romTicks == s.romTicks
      && SectorsLeft(t.task) == SectorsLeft(s.task) - (if EndsRomCall(s, Task0) then 1 else 0)
  {
    match s.task
    case Enter(n) => SectorIs(n, 6 + s.romTicks);
    case Park(n) => SectorIs(n, 6 + s.romTicks);
    case TakeDriver(n) => SectorIs(n, 6 + s.romTicks);
    case _ =>
  }

  lemma OthersGetOn(s: State, e: Event)
    requires Counting(s) && Enabled(s, e) && (e.Handler0? || e.Take1? || e == Drop1(Critical) || e == Drop1(Scheduler))
    requires Inv(true, s)
    ensures
      var t := Step(true, s, e);
      && AllLeft(t) < AllLeft(s) && Counting(t) && t.romTicks == s.romTicks && t.task == s.task && !EndsRomCall(s, e)
  {
  }

  lemma CountingStep(s: State, e: Event)
    requires Inv(true, s) && Counting(s) && Enabled(s, e)
    ensures Counting(Step(true, s, e)) && Step(true, s, e).romTicks == s.romTicks
  {
  }

  lemma {:induction false} CountingRun(romTicks: nat, es: seq<Event>)
    requires Run(true, romTicks, es).Some?
    ensures Counting(Run(true, romTicks, es).value) && Run(true, romTicks, es).value.romTicks == romTicks
  {
    if es != [] {
      var before := es[..|es| - 1];
      CountingRun(romTicks, before);
      InvRun(true, romTicks, before);
      CountingStep(Run(true, romTicks, before).value, Last(es));
    }
  }

  /** How many ROM calls end in `more`, which follows `es`. */
  function RomCalls(guarded: bool, romTicks: nat, es: seq<Event>, more: seq<Event>): nat
    decreases |more|
  {
    if more == [] then 0
    else
      var before := more[..|more| - 1];
      var s := Run(guarded, romTicks, es + before);
      RomCalls(guarded, romTicks, es, before) + if s.Some? && EndsRomCall(s.value, Last(more)) then 1 else 0
  }

  /** From every point of every run of the guarded system, if nobody starts anything new, everything comes to rest -
      core 1 thawed, no lock held, no handler running - in a bounded number of steps, after exactly as many
      ROM calls as the operation in hand has sectors to do. */
  lemma EverythingComesToRest(romTicks: nat, es: seq<Event>) returns (more: seq<Event>)
    requires Run(true, romTicks, es).Some?
    ensures Run(true, romTicks, es + more) == Some(Rest(romTicks))
    ensures |more| <= AllLeft(Run(true, romTicks, es).value)
    ensures RomCalls(true, romTicks, es, more) == SectorsLeft(Run(true, romTicks, es).value.task)
  {
    hide Run, RomCalls;
    var first := Run(true, romTicks, es).value;
    more := [];
    var s := first;
    assert es + [] == es;
    NoRomCalls(true, romTicks, es);
    while NextEvent(s).Some?
      invariant Run(true, romTicks, es + more) == Some(s)
      invariant |more| + AllLeft(s) <= AllLeft(first)
      invariant RomCalls(true, romTicks, es, more) + SectorsLeft(s.task) == SectorsLeft(first.task)
      decreases AllLeft(s)
    {
      InvRun(true, romTicks, es + more);
      CountingRun(romTicks, es + more);
      NextEventGetsOn(s);
      var e := NextEvent(s).value;
      OneMore(true, romTicks, es, more, e);
      more, s := more + [e], Step(true, s, e);
    }
    InvRun(true, romTicks, es + more);
    CountingRun(romTicks, es + more);
    NextEventGetsOn(s);
  }

  /** So an operation on `n` sectors makes `n` ROM calls. */
  lemma OperationDoesEverySector(romTicks: nat, es: seq<Event>, n: nat) returns (more: seq<Event>)
    requires Run(true, romTicks, es + [Begin(n)]).Some?
    ensures Run(true, romTicks, es + [Begin(n)] + more) == Some(Rest(romTicks))
    ensures RomCalls(true, romTicks, es + [Begin(n)], more) == n
  {
    more := EverythingComesToRest(romTicks, es + [Begin(n)]);
    assert (es + [Begin(n)])[..|es + [Begin(n)]| - 1] == es;
  }

  lemma NoRomCalls(guarded: bool, romTicks: nat, es: seq<Event>)
    ensures RomCalls(guarded, romTicks, es, []) == 0
  {
  }

  lemma OneMore(guarded: bool, romTicks: nat, es: seq<Event>, more: seq<Event>, e: Event)
    requires Run(guarded, romTicks, es + more).Some? && Enabled(Run(guarded, romTicks, es + more).value, e)
    ensures
      var s := Run(guarded, romTicks, es + more).value;
      && Run(guarded, romTicks, es + (more + [e])) == Some(Step(guarded, s, e))
      && RomCalls(guarded, romTicks, es, more + [e]) ==
           RomCalls(guarded, romTicks, es, more) + (if EndsRomCall(s, e) then 1 else 0)
  {
    hide Enabled, Step;
    var all := es + (more + [e]);
    assert all[..|all| - 1] == es + more;
    assert (more + [e])[..|more + [e]| - 1] == more;
  }

  // -------------------------------------------------------------------------
  // Deadlock, with and without the guard
  // -------------------------------------------------------------------------

  /** Core 0's running context - its handler if there is one - can go on. A resting task can. */
  predicate Core0CanMove(s: State) {
    match s.handler
    case Absent => s.task.Resting? || TaskCanMove(s)
    case Waiting(l) => Free(s, l)
    case Inside(_) => true
  }

  predicate Core1CanMove(s: State) {
    !s.parked && (s.wants.None? || Free(s, s.wants.value))
  }

  predicate Stuck(s: State) {
    !Core0CanMove(s) && !Core1CanMove(s)
  }

  /** The only deadlock this system has, guarded or not: core 0's handler spins on a lock that the
      frozen core 1 holds. */
  lemma StuckExactlyWhen(guarded: bool, romTicks: nat, es: seq<Event>)
    requires Run(guarded, romTicks, es).Some?
    ensures var s := Run(guarded, romTicks, es).value;
      Stuck(s) <==> s.parked && s.handler.Waiting? && s.handler.lock in s.otherHolds
  {
    InvRun(guarded, romTicks, es);
  }

  lemma GuardedIsNeverStuck(romTicks: nat, es: seq<Event>)
    requires Run(true, romTicks, es).Some?
    ensures !Stuck(Run(true, romTicks, es).value)
  {
    StuckExactlyWhen(true, romTicks, es);
    if Run(true, romTicks, es).value.parked {
      WindowIsQuiet(romTicks, es, Task0);
    }
  }

  /** Masking only inside the ROM call: core 1 is frozen inside the scheduler, the ROM call ends,
      core 0 takes an interrupt before the un-park, and its handler wants the scheduler. */
  lemma UnguardedWedges() returns (es: seq<Event>)
    ensures Run(false, 0, es).Some?
    ensures Stuck(Run(false, 0, es).value) && Run(false, 0, es).value.task == Unpark(1)
  {
    var frozen := State(Park(1), {}, Absent, false, None, {Scheduler}, 0);
    es := FrozenInScheduler();
    es := Extend(es, frozen, Task0);
    es := Extend(es, frozen.(task := TakeDriver(1), parked := true), Task0);
    assert frozen.taskHolds + {Driver} == {Driver};
    es := Extend(es, frozen.(task := Rom(1, 0), taskHolds := {Driver}, parked := true), Task0);
    es := Extend(es, frozen.(task := DropDriver(1), taskHolds := {Driver}, parked := true), Task0);
    var wedge := frozen.(task := Unpark(1), parked := true);
    assert Run(false, 0, es) == Some(wedge);
    es := Extend(es, wedge, Interrupt(Scheduler));
  }

  lemma FrozenInScheduler() returns (es: seq<Event>)
    ensures Run(false, 0, es) == Some(State(Park(1), {}, Absent, false, None, {Scheduler}, 0))
  {
    es := Extend([], Rest(0), Lock1(Scheduler));
    es := Extend(es, Rest(0).(wants := Some(Scheduler)), Take1);
    assert Rest(0).otherHolds + {Scheduler} == {Scheduler};
    es := Extend(es, Rest(0).(otherHolds := {Scheduler}), Begin(1));
  }

  lemma Extend(es: seq<Event>, s: State, e: Event) returns (longer: seq<Event>)
    requires Run(false, 0, es) == Some(s) && Enabled(s, e)
    ensures Run(false, 0, longer) == Some(Step(false, s, e))
  {
    longer := es + [e];
    assert longer[..|longer| - 1] == es;
  }

  /** The wedge is for ever: from a stuck state only core 1's thaw or the lock's release could
      help, and neither core can make either happen. */
  lemma StuckIsForEver(guarded: bool, romTicks: nat, es: seq<Event>, e: Event)
    requires Run(guarded, romTicks, es).Some? && Stuck(Run(guarded, romTicks, es).value)
    ensures !Enabled(Run(guarded, romTicks, es).value, e)
  {
    StuckExactlyWhen(guarded, romTicks, es);
  }
}
