/** The brightness handshake: core 0 changes a setting and says that two framebuffers need the new window;
    core 1 writes the window into the buffer it holds, counts one off, and swaps the buffers.

    Each core makes one access to a shared cell at a time and the other may come between any two of them;
    time passes between any two as well. A request handler of core 0 is not interrupted by another one:
    they are tasks of one executor, and none of them waits while it is at this. */
module Brightness {
  import opened Common

  type Byte = b: nat | b < 256

  /** No override; no screen that asks for a brightness of its own. */
  const NONE: Byte := 255

  const TIME_BOX_MS: nat := 10_000
  const WRAP: nat := 0x1_0000_0000
  const HALF: nat := 0x8000_0000
  const FLOOR: nat := 6

  /** What a build fixes: the brightness cap, the slots of full brightness, the last slot that can be lit,
      and where the lit window starts by default. */
  datatype Board = Board(cap: Byte, slots: nat, last: nat, start: Byte)

  /** The atomics the window is computed from. */
  datatype Cells = Cells(start: Byte, override: Byte, deadline: nat, screen: Byte, level: Byte)

  /** The slots of a scan row that are lit, from `first` up to but not including `end`. */
  datatype Window = Window(first: nat, end: nat)

  // -------------------------------------------------------------------------
  // The window
  // -------------------------------------------------------------------------

  function Min(a: nat, b: nat): nat {
    if a < b then a else b
  }

  function Lit(board: Board, start: Byte, slots: nat): Window {
    var first := Min(start, board.last);
    Window(first, Min(first + slots, board.last))
  }

  function SlotsFor(board: Board, level: Byte): nat {
    var slots := (level * board.slots + 127) / 255;
    if level > 0 && slots == 0 then 1 else slots
  }

  function Clamped(board: Board, level: Byte): Byte {
    var capped := Min(level, board.cap);
    if capped == 0 then 0
    else if capped < FLOOR then Min(FLOOR, board.cap)
    else capped
  }

  function ScreenSlots(board: Board, screen: Byte): nat {
    SlotsFor(board, Clamped(board, screen))
  }

  /** The window the settings ask for: the override's, or the screen's, or the setting's. */
  function Aim(board: Board, c: Cells): Window {
    var slots :=
      if c.override != NONE then c.override
      else if c.screen != NONE then ScreenSlots(board, c.screen)
      else SlotsFor(board, c.level);
    Lit(board, c.start, slots)
  }

  /** Linear in the level, to the nearest slot; a level above zero lights one at least. */
  lemma SlotsForExactly(board: Board, level: Byte)
    requires board.slots > 0
    ensures
      var slots := SlotsFor(board, level);
      && (slots == 0 <==> level == 0)
      && (-127 <= 255 * slots - level * board.slots <= 127 || (slots == 1 && level * board.slots < 128))
      && slots <= board.slots && (level == 255 ==> slots == board.slots)
  {
    var raw := (level * board.slots + 127) / 255;
    assert level * board.slots + 127 - 254 <= 255 * raw <= level * board.slots + 127;
    assert level > 0 ==> level * board.slots > 0;
    Fewer(level, board.slots);
    if level == 0 {
      assert raw == 0;
    }
    if level == 255 {
      assert raw == board.slots;
    }
  }

  lemma Fewer(level: Byte, slots: nat)
    ensures level * slots <= 255 * slots
  {
  }

  /** More light for a higher level, or the same. */
  lemma SlotsForRises(board: Board, low: Byte, high: Byte)
    requires low <= high
    ensures SlotsFor(board, low) <= SlotsFor(board, high)
  {
    assert low * board.slots <= high * board.slots;
  }

  /** Never over the cap; zero stays dark, and any other level is not below six, which lights a slot. */
  lemma ClampedExactly(board: Board, level: Byte)
    requires board.cap > 0
    ensures
      var c := Clamped(board, level);
      && c <= board.cap && (c == 0 <==> level == 0) && (c < level ==> c == board.cap)
      && (c > level ==> c == 6 || c == board.cap < 6) && (c > 0 && c < 6 ==> c == board.cap)
  {
  }

  /** The window begins where it is told to and lights as many slots as it is told to, as far as the last slot
      allows. */
  lemma LitExactly(board: Board, start: Byte, slots: nat)
    ensures
      var w := Lit(board, start, slots);
      && w.first <= w.end <= board.last && w.first <= start && (w.first < start ==> w.first == board.last)
      && w.end - w.first <= slots && (w.end - w.first < slots ==> w.end == board.last)
  {
  }

  /** The clock is past the deadline, as far as the difference of two 32-bit numbers can tell. */
  predicate Passed(now: nat, deadline: nat) {
    0 < (now - deadline) % WRAP < HALF
  }

  /** For a deadline of ten seconds from `from`, whatever the clock's 32 bits say, and for as long as their difference
      means anything: twenty-four days. */
  lemma PassedExactly(from: nat, now: nat)
    requires from <= now < from + 10_000 + 0x8000_0000
    ensures Passed(now, (from + TIME_BOX_MS) % 0x1_0000_0000) <==> now > from + 10_000
  {
    var q := (from + TIME_BOX_MS) / WRAP;
    assert (from + TIME_BOX_MS) % WRAP == from + TIME_BOX_MS - q * WRAP;
    var d := now - (from + 10_000);
    SameRemainder(d, q);
    assert now - (from + TIME_BOX_MS) % WRAP == d + q * WRAP;
  }

  /** And for as long again it is as if the deadline were still to come. */
  lemma PassedNoMore(from: nat, now: nat)
    requires from + 10_000 + 0x8000_0000 <= now <= from + 10_000 + 0x1_0000_0000
    ensures !Passed(now, (from + TIME_BOX_MS) % 0x1_0000_0000)
  {
    var q := (from + TIME_BOX_MS) / WRAP;
    var d := now - (from + 10_000);
    SameRemainder(d, q);
    assert now - (from + TIME_BOX_MS) % WRAP == d + q * WRAP;
  }

  lemma {:induction false} SameRemainder(d: int, q: nat)
    ensures (d + q * WRAP) % WRAP == d % WRAP
  {
    if q > 0 {
      SameRemainder(d, q - 1);
      assert d + q * WRAP == d + (q - 1) * WRAP + WRAP;
      assert (d + (q - 1) * WRAP + WRAP) % WRAP == (d + (q - 1) * WRAP) % WRAP;
    }
  }

  // -------------------------------------------------------------------------
  // The machine
  // -------------------------------------------------------------------------

  datatype Handler = SetBrightness(applied: Byte) | SetStart(v: Byte) | SetOverride(v: Byte) | SetScreen(v: Byte)

  /** One access of a handler. `TakeTime` reads the clock for the store that comes next. */
  datatype Access =
    | PutLevel(v: Byte)
    | PutStart(v: Byte)
    | PutOverride(v: Byte)
    | TakeTime
    | PutDeadline(at: nat)
    | PutScreen(v: Byte)
    | Announce

  /** The access core 1 is about to make. */
  datatype Pc =
    | Top                                           // the count
    | Starting                                      // where the window starts
    | Overriding(start: Byte)                       // the override
    | Clocking(start: Byte, raw: Byte)              // the clock
    | Testing(start: Byte, raw: Byte, at: nat)      // the deadline
    | TakingBack(start: Byte)                       // the override, to `NONE`
    | Telling(start: Byte)                          // the count, to 2
    | Screening(start: Byte)                        // the screen's brightness
    | Levelling(start: Byte)                        // the brightness
    | Writing(start: Byte, slots: nat)              // the buffer it holds
    | Subtracting                                   // the count, one off
    | Swapping                                      // the buffers

  /** `mine` is the window in the buffer core 1 holds, `other` the one on the panel; `todo` is what is left
      of the handler core 0 is in. */
  datatype State = State(
    board: Board, cells: Cells, now: nat, dirty: int, todo: seq<Access>, pc: Pc, mine: Window, other: Window)

  /** `due` is whether there is a frame to draw for some other reason. */
  datatype Event = Handle(h: Handler) | Core0 | Core1(due: bool) | Tick(ms: nat)

  /** Both buffers are formatted at the stored brightness before core 1 starts. */
  function Boot(board: Board, level: Byte): State {
    var w := Lit(board, board.start, SlotsFor(board, level));
    State(board, Cells(board.start, NONE, 0, NONE, level), 0, 0, [], Top, w, w)
  }

  function Accesses(c: Cells, h: Handler): seq<Access> {
    match h
    case SetBrightness(v) => if v == c.level then [] else [PutLevel(v), PutOverride(NONE), Announce]
    case SetStart(v) => [PutStart(v), Announce]
    case SetOverride(v) => [PutOverride(v), TakeTime, PutDeadline(0), Announce]
    case SetScreen(v) => if v == c.screen then [] else [PutScreen(v), Announce]
  }

  function Perform(s: State): State
    requires s.todo != []
  {
    var t := s.(todo := s.todo[1..]);
    match s.todo[0]
    case PutLevel(v) => t.(cells := s.cells.(level := v))
    case PutStart(v) => t.(cells := s.cells.(start := v))
    case PutOverride(v) => t.(cells := s.cells.(override := v))
    case TakeTime =>
      if t.todo == [] || !t.todo[0].PutDeadline? then t
      else t.(todo := [PutDeadline((s.now + TIME_BOX_MS) % WRAP)] + t.todo[1..])
    case PutDeadline(at) => t.(cells := s.cells.(deadline := at))
    case PutScreen(v) => t.(cells := s.cells.(screen := v))
    case Announce => t.(dirty := 2)
  }

  function Advance(s: State, due: bool): State {
    match s.pc
    case Top => if s.dirty > 0 then s.(pc := Starting) else if due then s.(pc := Swapping) else s
    case Starting => s.(pc := Overriding(s.cells.start))
    case Overriding(start) =>
      s.(pc := if s.cells.override != NONE then Clocking(start, s.cells.override) else Screening(start))
    case Clocking(start, raw) => s.(pc := Testing(start, raw, s.now))
    case Testing(start, raw, at) =>
      s.(pc := if Passed(at, s.cells.deadline) then TakingBack(start) else Writing(start, raw))
    case TakingBack(start) => s.(cells := s.cells.(override := NONE), pc := Telling(start))
    case Telling(start) => s.(dirty := 2, pc := Screening(start))
    case Screening(start) =>
      s.(pc := if s.cells.screen != NONE then Writing(start, ScreenSlots(s.board, s.cells.screen)) else Levelling(start))
    case Levelling(start) => s.(pc := Writing(start, SlotsFor(s.board, s.cells.level)))
    case Writing(start, slots) => s.(mine := Lit(s.board, start, slots), pc := Subtracting)
    case Subtracting => s.(dirty := s.dirty - 1, pc := Swapping)
    case Swapping => s.(mine := s.other, other := s.mine, pc := Top)
  }

  function Step(s: State, e: Event): Option<State> {
    match e
    case Handle(h) => if s.todo == [] then Some(s.(todo := Accesses(s.cells, h))) else None
    case Core0 => if s.todo != [] then Some(Perform(s)) else None
    case Core1(due) => Some(Advance(s, due))
    case Tick(ms) => Some(s.(now := s.now + ms))
  }

  function Run(board: Board, level: Byte, es: seq<Event>): Option<State> {
    if es == [] then Some(Boot(board, level))
    else
      var s := Run(board, level, es[..|es| - 1]);
      if s.None? then None else Step(s.value, Last(es))
  }

  // -------------------------------------------------------------------------
  // The invariant
  // -------------------------------------------------------------------------

  /** Nobody has changed a setting and not yet said so. */
  predicate Settled(s: State) {
    s.todo == [] && !s.pc.TakingBack? && !s.pc.Telling?
  }

  /** Core 1 has found the count above zero and not yet taken one off. */
  predicate InTurn(pc: Pc) {
    !pc.Top? && !pc.Swapping?
  }

  /** The window that this turn of core 1 leaves in its buffer if no setting changes any more. */
  function Outcome(s: State): Window
    requires InTurn(s.pc)
  {
    match s.pc
    case Starting => Aim(s.board, s.cells)
    case Overriding(start) => Aim(s.board, s.cells.(start := start))
    case Clocking(start, raw) => Lit(s.board, start, raw)
    case Testing(start, raw, _) => Lit(s.board, start, raw)
    case TakingBack(start) => Aim(s.board, s.cells)
    case Telling(start) => Aim(s.board, s.cells.(start := start, override := NONE))
    case Screening(start) => Aim(s.board, s.cells.(start := start, override := NONE))
    case Levelling(start) => Aim(s.board, s.cells.(start := start, override := NONE, screen := NONE))
    case Writing(start, slots) => Lit(s.board, start, slots)
    case Subtracting => s.mine
  }

  /** What has been read is not what is set. */
  predicate Stale(s: State) {
    InTurn(s.pc) && Outcome(s) != Aim(s.board, s.cells)
  }

  /** The event is a `store(2)`, of either core. */
  predicate Announces(s: State, e: Event) {
    || (e.Core0? && s.todo != [] && s.todo[0].Announce?)
    || (e.Core1? && s.pc.Telling?)
  }

  /** The last `store(2)` of the run came after the settings it was for had been read and before the count
      was taken off. */
  predicate Missed(board: Board, level: Byte, es: seq<Event>) {
    es != [] &&
    var before := Run(board, level, es[..|es| - 1]);
    if before.Some? && Announces(before.value, Last(es)) then Stale(before.value)
    else Missed(board, level, es[..|es| - 1])
  }

  /** With the count at `dirty`, what the next buffer to be written, and the one after it, show. */
  predicate Holds(s: State, next: Window, after: Window, missed: bool) {
    var aim := Aim(s.board, s.cells);
    && (s.dirty == 0 ==> (missed <==> next != aim || after != aim))
    && (s.dirty == 1 ==> (missed <==> after != aim))
    && (s.dirty == 2 ==> !missed)
  }

  predicate Inv(s: State, missed: bool) {
    && 0 <= s.dirty <= 2
    && (InTurn(s.pc) ==> s.dirty >= 1)
    && (s.todo != [] ==> Last(s.todo).Announce?)
    && (Settled(s) ==>
          match s.pc
          case Top => Holds(s, s.mine, s.other, missed)
          case Swapping => Holds(s, s.other, s.mine, missed)
          case _ => if Stale(s) then missed && s.dirty == 2 else Holds(s, s.mine, s.other, missed))
  }

  lemma Core0KeepsInv(s: State, missed: bool)
    requires Inv(s, missed) && s.todo != []
    ensures Inv(Perform(s), if s.todo[0].Announce? then Stale(s) else missed)
  {
    hide Lit, SlotsFor, ScreenSlots, Aim;
    var t := Perform(s);
    assert s.todo[1..] != [] ==> Last(s.todo[1..]) == Last(s.todo);
    if s.todo[0].TakeTime? {
      assert t.todo != [] ==> Last(t.todo) == Last(s.todo) || |s.todo| == 2;
    }
  }

  lemma Core1KeepsInv(s: State, missed: bool, due: bool)
    requires Inv(s, missed)
    ensures Inv(Advance(s, due), if s.pc.Telling? then Stale(s) else missed)
  {
    hide Lit, SlotsFor, ScreenSlots, Passed;
  }

  lemma StepKeepsInv(s: State, missed: bool, e: Event)
    requires Inv(s, missed) && Step(s, e).Some?
    ensures Inv(Step(s, e).value, if Announces(s, e) then Stale(s) else missed)
  {
    hide Perform, Advance, Aim, Lit;
    match e
    case Handle(_) =>
    case Core0 => Core0KeepsInv(s, missed);
    case Core1(due) => Core1KeepsInv(s, missed, due);
    case Tick(_) =>
  }

  lemma {:induction false} InvRun(board: Board, level: Byte, es: seq<Event>)
    requires Run(board, level, es).Some?
    ensures Inv(Run(board, level, es).value, Missed(board, level, es))
  {
    hide Inv, Step, Announces, Stale;
    if es == [] {
      BootInv(board, level);
    } else {
      var before := es[..|es| - 1];
      InvRun(board, level, before);
      StepKeepsInv(Run(board, level, before).value, Missed(board, level, before), Last(es));
    }
  }

  lemma BootInv(board: Board, level: Byte)
    ensures Inv(Boot(board, level), false)
  {
  }

  // -------------------------------------------------------------------------
  // What holds in every run
  // -------------------------------------------------------------------------

  /** The count never goes below zero. */
  lemma NeverUnderflows(board: Board, level: Byte, es: seq<Event>)
    requires Run(board, level, es).Some?
    ensures
      var s := Run(board, level, es).value;
      0 <= s.dirty <= 2 && (s.pc.Subtracting? ==> s.dirty >= 1)
  {
    hide Run, Missed;
    InvRun(board, level, es);
  }

  predicate BothShow(s: State, w: Window) {
    s.mine == w && s.other == w
  }

  /** When the count is down to zero and nobody is between a change and its `store(2)`, both buffers have the
      window that the settings ask for exactly when the last `store(2)` was not missed. */
  lemma BothBuffersExactlyWhenNotMissed(board: Board, level: Byte, es: seq<Event>)
    requires Run(board, level, es).Some?
    ensures
      var s := Run(board, level, es).value;
      Settled(s) && s.dirty == 0 ==> (BothShow(s, Aim(board, s.cells)) <==> !Missed(board, level, es))
  {
    hide Run, Missed, Aim, Lit;
    InvRun(board, level, es);
    BoardStays(board, level, es);
  }

  lemma {:induction false} BoardStays(board: Board, level: Byte, es: seq<Event>)
    requires Run(board, level, es).Some?
    ensures Run(board, level, es).value.board == board
  {
    if es != [] {
      BoardStays(board, level, es[..|es| - 1]);
    }
  }

  /** Core 0 has changed a cell since core 1 last read the count. */
  predicate Touched(board: Board, level: Byte, es: seq<Event>) {
    es != [] &&
    var before := Run(board, level, es[..|es| - 1]);
    if before.Some? && Last(es).Core1? && before.value.pc.Top? then false
    else
      || (Last(es).Core0? && before.Some? && before.value.todo != [] && !before.value.todo[0].Announce?)
      || Touched(board, level, es[..|es| - 1])
  }

  /** Whatever core 1 has read this turn is what is set. */
  predicate UpToDate(s: State) {
    match s.pc
    case Overriding(start) => start == s.cells.start
    case Clocking(start, raw) => start == s.cells.start && raw == s.cells.override != NONE
    case Testing(start, raw, _) => start == s.cells.start && raw == s.cells.override != NONE
    case TakingBack(start) => start == s.cells.start
    case Telling(start) => start == s.cells.start && s.cells.override == NONE
    case Screening(start) => start == s.cells.start && s.cells.override == NONE
    case Levelling(start) => start == s.cells.start && s.cells.override == NONE && s.cells.screen == NONE
    case Writing(start, slots) => Lit(s.board, start, slots) == Aim(s.board, s.cells)
    case Subtracting => s.mine == Aim(s.board, s.cells)
    case _ => true
  }

  lemma UpToDateIsNotStale(s: State)
    ensures UpToDate(s) ==> !Stale(s)
  {
    hide Lit, SlotsFor, ScreenSlots;
  }

  lemma {:induction false} UpToDateUnlessTouched(board: Board, level: Byte, es: seq<Event>)
    requires Run(board, level, es).Some? && !Touched(board, level, es)
    ensures UpToDate(Run(board, level, es).value)
  {
    hide Lit, SlotsFor, ScreenSlots, Passed;
    if es != [] {
      var before := es[..|es| - 1];
      var s := Run(board, level, before).value;
      if !Touched(board, level, before) {
        UpToDateUnlessTouched(board, level, before);
      }
    }
  }

  /** Both a change of core 0's and the `store(2)` after it, which is the last of the run, fell into one turn
      of core 1's: after it had found the count above zero and before it took one off. */
  ghost predicate InTheWindow(board: Board, level: Byte, es: seq<Event>) {
    exists k: nat :: k < |es| && LastStoreInTurn(board, level, es, k)
  }

  ghost predicate LastStoreInTurn(board: Board, level: Byte, es: seq<Event>, k: nat)
    requires k < |es|
  {
    var s := Run(board, level, es[..k]);
    && s.Some? && InTurn(s.value.pc) && Announces(s.value, es[k]) && Touched(board, level, es[..k])
    && forall i :: k < i < |es| && Run(board, level, es[..i]).Some? ==>
         !Announces(Run(board, level, es[..i]).value, es[i])
  }

  lemma {:induction false} MissedOnlyInTheWindow(board: Board, level: Byte, es: seq<Event>)
    requires Run(board, level, es).Some? && Missed(board, level, es)
    ensures InTheWindow(board, level, es)
  {
    hide Stale, Announces, Step;
    var n := |es| - 1;
    var s := Run(board, level, es[..n]).value;
    if Announces(s, es[n]) {
      UpToDateIsNotStale(s);
      if !Touched(board, level, es[..n]) {
        UpToDateUnlessTouched(board, level, es[..n]);
      }
      StaleInTurn(s);
      assert LastStoreInTurn(board, level, es, n);
    } else {
      MissedOnlyInTheWindow(board, level, es[..n]);
      var k: nat :| k < n && LastStoreInTurn(board, level, es[..n], k);
      assert es[..n][..k] == es[..k] && es[..n][k] == es[k];
      forall i | k < i < |es| && Run(board, level, es[..i]).Some?
        ensures !Announces(Run(board, level, es[..i]).value, es[i])
      {
        if i < n {
          assert es[..n][..i] == es[..i] && es[..n][i] == es[i];
        }
      }
      assert LastStoreInTurn(board, level, es, k);
    }
  }

  lemma StaleInTurn(s: State)
    ensures Stale(s) ==> InTurn(s.pc)
  {
  }

  /** So the window is the only way to lose a change. */
  lemma OutsideTheWindowNothingIsLost(board: Board, level: Byte, es: seq<Event>)
    requires Run(board, level, es).Some? && !InTheWindow(board, level, es)
    ensures
      var s := Run(board, level, es).value;
      Settled(s) && s.dirty == 0 ==> BothShow(s, Aim(board, s.cells))
  {
    hide Run, Missed, InTheWindow, Aim;
    BothBuffersExactlyWhenNotMissed(board, level, es);
    if Missed(board, level, es) {
      MissedOnlyInTheWindow(board, level, es);
    }
  }

  /** In slots: at rest outside that window, and with no override, both buffers light the slots of the screen's
      brightness, under the cap, if a screen asks for one, and of the setting otherwise: none for zero and
      otherwise the nearest number to the level's share of all of them, and one at least. */
  lemma AtRestTheLevelIsShown(board: Board, level: Byte, es: seq<Event>) returns (slots: nat)
    requires Run(board, level, es).Some? && !InTheWindow(board, level, es) && board.slots > 0 && board.cap > 0
    requires var s := Run(board, level, es).value;
      Settled(s) && s.dirty == 0 && s.cells.override == 255
    ensures
      var s := Run(board, level, es).value;
      var asked: int := if s.cells.screen == 255 then s.cells.level
        else if s.cells.screen > board.cap then board.cap
        else if 0 < s.cells.screen < 6 then (if board.cap < 6 then board.cap else 6)
        else s.cells.screen;
      && (slots == 0 <==> asked == 0)
      && (-127 <= 255 * slots - asked * board.slots <= 127 || (slots == 1 && asked * board.slots < 128))
      && s.mine == s.other && s.mine.first <= s.cells.start && (s.mine.first < s.cells.start ==> s.mine.first == board.last)
      && s.mine.end - s.mine.first <= slots && (s.mine.end - s.mine.first < slots ==> s.mine.end == board.last)
  {
    hide Run, InTheWindow, SlotsFor, Lit;
    OutsideTheWindowNothingIsLost(board, level, es);
    BoardStays(board, level, es);
    var s := Run(board, level, es).value;
    var asked := if s.cells.screen != NONE then Clamped(board, s.cells.screen) else s.cells.level;
    slots := SlotsFor(board, asked);
    SlotsForExactly(board, asked);
    LitExactly(board, s.cells.start, slots);
  }

  /** And an override lights exactly as many as it says. */
  lemma AtRestTheOverrideIsShown(board: Board, level: Byte, es: seq<Event>)
    requires Run(board, level, es).Some? && !InTheWindow(board, level, es)
    requires var s := Run(board, level, es).value;
      Settled(s) && s.dirty == 0 && s.cells.override != 255
    ensures
      var s := Run(board, level, es).value;
      && s.mine == s.other && s.mine.first <= s.cells.start && (s.mine.first < s.cells.start ==> s.mine.first == board.last)
      && s.mine.end - s.mine.first <= s.cells.override
      && (s.mine.end - s.mine.first < s.cells.override ==> s.mine.end == board.last)
  {
    hide Run, InTheWindow, Lit;
    OutsideTheWindowNothingIsLost(board, level, es);
    BoardStays(board, level, es);
    var s := Run(board, level, es).value;
    LitExactly(board, s.cells.start, s.cells.override);
  }

  // -------------------------------------------------------------------------
  // Runs, a step at a time
  // -------------------------------------------------------------------------

  /** One more event of a run. */
  lemma Goes(board: Board, level: Byte, es: seq<Event>, s: State, e: Event)
    requires Run(board, level, es) == Some(s)
    ensures Run(board, level, es + [e]) == Step(s, e)
    ensures Missed(board, level, es + [e]) == if Announces(s, e) then Stale(s) else Missed(board, level, es)
  {
    hide Step, Announces, Stale;
    assert (es + [e])[..|es + [e]| - 1] == es;
  }

  lemma BootRuns(board: Board, level: Byte)
    ensures Run(board, level, []) == Some(Boot(board, level)) && !Missed(board, level, [])
  {
  }

  lemma More(board: Board, level: Byte, es: seq<Event>, s: State, e: Event, t: State) returns (longer: seq<Event>)
    requires Run(board, level, es) == Some(s) && Step(s, e) == Some(t)
    ensures Run(board, level, longer) == Some(t) && longer == es + [e]
  {
    hide Step, Run, Missed;
    longer := es + [e];
    Goes(board, level, es, s, e);
  }

  function Finished(s: State): State
    decreases |s.todo|
  {
    if s.todo == [] then s else Finished(Perform(s))
  }

  /** Core 0 gets to the end of its handler while core 1 does nothing. */
  lemma {:induction false} Finishes(board: Board, level: Byte, es: seq<Event>, s: State) returns (longer: seq<Event>)
    requires Run(board, level, es) == Some(s)
    ensures Run(board, level, longer) == Some(Finished(s))
    ensures !InTurn(s.pc) && !Missed(board, level, es) ==> !Missed(board, level, longer)
    ensures es <= longer
    decreases |s.todo|
  {
    hide Run, Missed, Aim, Outcome;
    longer := es;
    if s.todo != [] {
      Goes(board, level, es, s, Core0);
      longer := Finishes(board, level, es + [Core0], Perform(s));
    }
  }

  /** What a handler does if nothing comes between its accesses. */
  function Handled(s: State, h: Handler): State {
    match h
    case SetBrightness(v) =>
      if v == s.cells.level then s else s.(cells := s.cells.(level := v, override := NONE), dirty := 2)
    case SetStart(v) => s.(cells := s.cells.(start := v), dirty := 2)
    case SetOverride(v) => s.(cells := s.cells.(override := v, deadline := (s.now + TIME_BOX_MS) % WRAP), dirty := 2)
    case SetScreen(v) => if v == s.cells.screen then s else s.(cells := s.cells.(screen := v), dirty := 2)
  }

  lemma FinishedIsHandled(s: State, h: Handler)
    requires s.todo == []
    ensures Finished(s.(todo := Accesses(s.cells, h))) == Handled(s, h)
  {
    var s0 := s.(todo := Accesses(s.cells, h));
    if s0.todo != [] {
      var s1 := Perform(s0);
      var s2 := Perform(s1);
      assert Finished(s0) == Finished(s1) == Finished(s2);
      match h
      case SetStart(_) =>
      case SetScreen(_) =>
      case SetBrightness(_) => assert Finished(s2) == Perform(s2);
      case SetOverride(_) =>
        var s3 := Perform(s2);
        assert Finished(s2) == Finished(s3) == Perform(s3);
    }
  }

  lemma HandlerRuns(board: Board, level: Byte, es: seq<Event>, s: State, h: Handler) returns (longer: seq<Event>)
    requires Run(board, level, es) == Some(s) && s.todo == []
    ensures Run(board, level, longer) == Some(Handled(s, h)) && es + [Handle(h)] <= longer
    ensures !InTurn(s.pc) && !Missed(board, level, es) ==> !Missed(board, level, longer)
  {
    hide Run, Missed, Handled, Finished;
    Goes(board, level, es, s, Handle(h));
    longer := Finishes(board, level, es + [Handle(h)], s.(todo := Accesses(s.cells, h)));
    FinishedIsHandled(s, h);
  }

  /** Core 1 makes `n` accesses while core 0 does nothing. */
  function Advanced(s: State, n: nat): State
    decreases n
  {
    if n == 0 then s else Advanced(Advance(s, false), n - 1)
  }

  lemma {:induction false} Advances(board: Board, level: Byte, es: seq<Event>, s: State, n: nat)
    returns (longer: seq<Event>)
    requires Run(board, level, es) == Some(s)
    ensures Run(board, level, longer) == Some(Advanced(s, n)) && es <= longer
    decreases n
  {
    hide Run, Advance;
    longer := es;
    if n > 0 {
      longer := More(board, level, es, s, Core1(false), Advance(s, false));
      longer := Advances(board, level, longer, Advance(s, false), n - 1);
    }
  }

  // -------------------------------------------------------------------------
  // Core 1 gets there
  // -------------------------------------------------------------------------

  /** How many accesses core 1 is from the end of its turn, at most. */
  function ToGo(pc: Pc): nat {
    match pc
    case Top => 12
    case Starting => 11
    case Overriding(_) => 10
    case Clocking(_, _) => 9
    case Testing(_, _, _) => 8
    case TakingBack(_) => 7
    case Telling(_) => 6
    case Screening(_) => 5
    case Levelling(_) => 4
    case Writing(_, _) => 3
    case Subtracting => 2
    case Swapping => 13
  }

  /** And how many turns it may still have to make, this one included. Taking an override back costs two more,
      once. */
  function TurnsToGo(s: State): nat
    requires s.dirty >= 0
  {
    var again := if s.cells.override != NONE then 2 else 0;
    match s.pc
    case TakingBack(_) => 2
    case Telling(_) => 2 + again
    case Clocking(_, _) => s.dirty + 2
    case Testing(_, _, _) => s.dirty + 2
    case _ => s.dirty + again
  }

  const ENOUGH: nat := 61

  /** Accesses of core 1 until the count is zero, at most. */
  function Left(s: State): nat
    requires s.dirty >= 0
  {
    if s.dirty == 0 then 0 else ToGo(s.pc) + 12 * TurnsToGo(s)
  }

  lemma AccessGetsOn(s: State, due: bool)
    requires 0 <= s.dirty <= 2 && (InTurn(s.pc) ==> s.dirty >= 1)
    ensures
      var t := Advance(s, due);
      0 <= t.dirty <= 2 && Left(s) <= ENOUGH && (s.dirty == 0 ==> t.dirty == 0) && (s.dirty > 0 ==> Left(t) < Left(s))
  {
    hide Lit, SlotsFor, ScreenSlots, Passed;
  }

  predicate OnlyCore1(es: seq<Event>) {
    forall e :: e in es ==> e.Core1? || e.Tick?
  }

  function Core1s(es: seq<Event>): (n: nat)
    ensures n <= |es| && ((forall e :: e in es ==> e.Core1?) ==> n == |es|)
  {
    if es == [] then 0 else Core1s(es[..|es| - 1]) + if Last(es).Core1? then 1 else 0
  }

  lemma {:induction false} Core1GetsOn(board: Board, level: Byte, es: seq<Event>, more: seq<Event>)
    requires Run(board, level, es).Some? && OnlyCore1(more)
    ensures Run(board, level, es + more).Some?
    ensures
      var s, t := Run(board, level, es).value, Run(board, level, es + more).value;
      && 0 <= s.dirty <= 2 && 0 <= t.dirty <= 2 && t.todo == s.todo
      && (t.dirty == 0 || Left(t) + Core1s(more) <= Left(s))
  {
    hide Run, Missed, Left, Advance;
    InvRun(board, level, es);
    if more == [] {
      assert es + more == es;
    } else {
      var before, e := more[..|more| - 1], Last(more);
      assert e in more && forall x :: x in before ==> x in more;
      Core1GetsOn(board, level, es, before);
      InvRun(board, level, es + before);
      var s := Run(board, level, es + before).value;
      assert es + more == es + before + [e];
      Goes(board, level, es + before, s, e);
      if e.Core1? {
        AccessGetsOn(s, e.due);
        AdvanceKeepsTodo(s, e.due);
      } else {
        TimeChangesNothing(s, e.ms);
      }
    }
  }

  lemma AdvanceKeepsTodo(s: State, due: bool)
    ensures Advance(s, due).todo == s.todo
  {
    hide Lit, SlotsFor, ScreenSlots, Passed;
  }

  lemma TimeChangesNothing(s: State, ms: nat)
    requires s.dirty >= 0
    ensures Left(s.(now := s.now + ms)) == Left(s)
  {
  }

  /** From every point of every run: once core 0 stops, no more than sixty-one accesses of core 1, with any time in
      between, bring the count to zero; and if no handler was half done, both buffers then have the window that
      the settings ask for, exactly when the last `store(2)` was not missed. */
  lemma EveryAnnouncementIsServed(board: Board, level: Byte, es: seq<Event>, more: seq<Event>)
    requires Run(board, level, es).Some? && OnlyCore1(more) && Core1s(more) >= 61
    ensures Run(board, level, es + more).Some?
    ensures
      var s, t := Run(board, level, es).value, Run(board, level, es + more).value;
      && t.dirty == 0 && !InTurn(t.pc)
      && (s.todo == [] ==> (BothShow(t, Aim(board, t.cells)) <==> !Missed(board, level, es + more)))
  {
    hide Run, Missed, Left, Aim;
    Core1GetsOn(board, level, es, more);
    InvRun(board, level, es);
    InvRun(board, level, es + more);
    AccessGetsOn(Run(board, level, es).value, false);
    LeftIsSome(Run(board, level, es + more).value);
    BothBuffersExactlyWhenNotMissed(board, level, es + more);
  }

  lemma LeftIsSome(s: State)
    ensures s.dirty > 0 ==> Left(s) > 0
  {
  }

  // -------------------------------------------------------------------------
  // The window is a way to lose a change
  // -------------------------------------------------------------------------

  const SOME_BOARD: Board := Board(160, 25, 62, 8)

  lemma ReadsWindow(s: State, n: nat) returns (t: State)
    requires s.pc.Top? && s.dirty > 0 && s.cells.screen == NONE
    requires s.cells.override != NONE ==> !Passed(s.now, s.cells.deadline)
    ensures Advanced(s, n + 5) == Advanced(t, n)
    ensures t.pc.Writing? && t == s.(pc := t.pc) && Lit(s.board, t.pc.start, t.pc.slots) == Aim(s.board, s.cells)
  {
    hide Advanced, Lit, SlotsFor, Passed;
    t := s;
    for i := 0 to 5
      invariant Advanced(s, n + 5) == Advanced(t, n + 5 - i) && t == s.(pc := t.pc)
      invariant
        match t.pc
        case Top => i == 0
        case Starting => i == 1
        case Overriding(start) => i == 2 && start == s.cells.start
        case Clocking(start, raw) => i == 3 && start == s.cells.start && raw == s.cells.override != NONE
        case Testing(start, raw, at) => i == 4 && start == s.cells.start && raw == s.cells.override != NONE && at == s.now
        case Screening(start) => i == 3 && start == s.cells.start && s.cells.override == NONE
        case Levelling(start) => i == 4 && start == s.cells.start && s.cells.override == NONE
        case Writing(start, slots) => i == 5 && Lit(s.board, start, slots) == Aim(s.board, s.cells)
        case _ => false
    {
      OneAdvance(t, n + 5 - i);
      t := Advance(t, false);
    }
  }

  /** A turn of core 1's in which nothing else happens and no override has to be taken back. */
  lemma Turned(s: State)
    requires s.pc.Top? && s.dirty > 0 && s.cells.screen == NONE
    requires s.cells.override != NONE ==> !Passed(s.now, s.cells.deadline)
    ensures Advanced(s, 8) == s.(mine := s.other, other := Aim(s.board, s.cells), dirty := s.dirty - 1)
  {
    hide Advanced, Aim, Lit, Passed;
    var t := ReadsWindow(s, 3);
    WritesWindow(t);
  }

  lemma WritesWindow(s: State)
    requires s.pc.Writing?
    ensures Advanced(s, 3) ==
      s.(mine := s.other, other := Lit(s.board, s.pc.start, s.pc.slots), dirty := s.dirty - 1, pc := Top)
  {
    hide Advanced, Lit;
    OneAdvance(s, 3);
    var t := s.(mine := Lit(s.board, s.pc.start, s.pc.slots), pc := Subtracting);
    OneAdvance(t, 2);
    t := t.(dirty := s.dirty - 1, pc := Swapping);
    OneAdvance(t, 1);
    OneAdvance(Advance(t, false), 0);
  }

  lemma OneAdvance(s: State, n: nat)
    ensures Advanced(s, n) == if n == 0 then s else Advanced(Advance(s, false), n - 1)
  {
    hide Advance;
  }

  /** The start of the window goes from 8 to 9 and, while the first buffer's window has been read and not yet
      written, to 10. It settles with one buffer at 9 and one at 10. */
  lemma TwoBuffersDisagree() returns (es: seq<Event>)
    ensures
      var s := Run(SOME_BOARD, 96, es);
      && s.Some? && Settled(s.value) && s.value.dirty == 0 && s.value.pc == Top
      && Aim(SOME_BOARD, s.value.cells) == s.value.other == Window(10, 19) && s.value.mine == Window(9, 18)
  {
    hide Run, Advanced, Advance;
    var s := Boot(SOME_BOARD, 96);
    BootRuns(SOME_BOARD, 96);
    es := HandlerRuns(SOME_BOARD, 96, [], s, SetStart(9));
    s := Handled(s, SetStart(9));
    es := Advances(SOME_BOARD, 96, es, s, 5);
    var t := ReadsWindow(s, 0);
    OneAdvance(t, 0);
    s := t;
    es := HandlerRuns(SOME_BOARD, 96, es, s, SetStart(10));
    s := Handled(s, SetStart(10));
    es := Advances(SOME_BOARD, 96, es, s, 3);
    WritesWindow(s);
    s := Advanced(s, 3);
    es := Advances(SOME_BOARD, 96, es, s, 8);
    Turned(s);
  }

  // -------------------------------------------------------------------------
  // The override's time box
  // -------------------------------------------------------------------------

  /** The state before the `k`th event. */
  function At(board: Board, level: Byte, es: seq<Event>, k: nat): State
    requires Run(board, level, es).Some? && k <= |es|
    ensures Run(board, level, es[..k]) == Some(At(board, level, es, k))
  {
    RunOfLess(board, level, es, k);
    Run(board, level, es[..k]).value
  }

  lemma {:induction false} RunOfLess(board: Board, level: Byte, es: seq<Event>, k: nat)
    requires Run(board, level, es).Some? && k <= |es|
    ensures Run(board, level, es[..k]).Some?
  {
    if k < |es| {
      RunOfLess(board, level, es[..|es| - 1], k);
      assert es[..|es| - 1][..k] == es[..k];
    } else {
      assert es[..k] == es;
    }
  }

  lemma AtNext(board: Board, level: Byte, es: seq<Event>, k: nat)
    requires Run(board, level, es).Some? && k < |es|
    ensures Step(At(board, level, es, k), es[k]) == Some(At(board, level, es, k + 1))
  {
    assert es[..k + 1][..k] == es[..k];
  }

  /** Events `j` and `k` are accesses of core 1, and it makes none in between. */
  predicate InARow(es: seq<Event>, j: nat, k: nat) {
    j < k < |es| && es[j].Core1? && es[k].Core1? && forall i :: j < i < k ==> !es[i].Core1?
  }

  lemma {:induction false} WhereItWas(board: Board, level: Byte, es: seq<Event>, j: nat, k: nat)
    requires Run(board, level, es).Some? && j <= k <= |es| && forall i :: j <= i < k ==> !es[i].Core1?
    ensures At(board, level, es, k).pc == At(board, level, es, j).pc
  {
    hide Run, At;
    if j < k {
      WhereItWas(board, level, es, j, k - 1);
      AtNext(board, level, es, k - 1);
    }
  }

  /** Core 1 is where its last access left it. */
  lemma AfterTheLast(board: Board, level: Byte, es: seq<Event>, j: nat, k: nat)
    requires Run(board, level, es).Some? && InARow(es, j, k)
    ensures At(board, level, es, k).pc == Advance(At(board, level, es, j), es[j].due).pc
  {
    hide Run, At, Advance;
    WhereItWas(board, level, es, j + 1, k);
    AtNext(board, level, es, j);
  }

  /** Core 1 is not at the top of its loop, so it has made an access before. */
  lemma {:induction false} OneBefore(board: Board, level: Byte, es: seq<Event>, k: nat) returns (j: nat)
    requires Run(board, level, es).Some? && k < |es| && es[k].Core1? && !At(board, level, es, k).pc.Top?
    ensures InARow(es, j, k)
  {
    hide Run, At;
    if forall i :: 0 <= i < k ==> !es[i].Core1? {
      WhereItWas(board, level, es, 0, k);
      FirstIsBoot(board, level, es);
      assert false;
    }
    var n := k;
    while !es[n - 1].Core1?
      invariant 0 < n <= k && exists i :: 0 <= i < n && es[i].Core1?
      invariant forall i :: n <= i < k ==> !es[i].Core1?
      decreases n
    {
      n := n - 1;
    }
    j := n - 1;
  }

  lemma FirstIsBoot(board: Board, level: Byte, es: seq<Event>)
    requires Run(board, level, es).Some?
    ensures At(board, level, es, 0) == Boot(board, level)
  {
  }

  /** A turn in which the count was above zero when it was loaded, the override was set when it was loaded, and
      the clock, when it was read, was past the deadline that was then loaded. The five accesses before event
      `k` of core 1 are the count, the start, the override, the clock and the deadline. */
  ghost predicate ExpiredTurn(
    board: Board, level: Byte, es: seq<Event>, count: nat, start: nat, override: nat, clock: nat, deadline: nat, k: nat)
    requires Run(board, level, es).Some?
  {
    && InARow(es, count, start) && InARow(es, start, override) && InARow(es, override, clock)
    && InARow(es, clock, deadline) && InARow(es, deadline, k)
    && At(board, level, es, count).pc.Top? && At(board, level, es, count).dirty > 0
    && At(board, level, es, override).cells.override != NONE
    && Passed(At(board, level, es, clock).now, At(board, level, es, deadline).cells.deadline)
  }

  /** Event `k` is core 1 storing `NONE` in the override. */
  ghost predicate TakesBack(board: Board, level: Byte, es: seq<Event>, k: nat)
    requires Run(board, level, es).Some? && k < |es|
  {
    es[k].Core1? && At(board, level, es, k).pc.TakingBack?
  }

  lemma TakenBackInAnExpiredTurn(board: Board, level: Byte, es: seq<Event>, k: nat)
    returns (count: nat, start: nat, override: nat, clock: nat, deadline: nat)
    requires Run(board, level, es).Some? && k < |es| && TakesBack(board, level, es, k)
    ensures ExpiredTurn(board, level, es, count, start, override, clock, deadline, k)
  {
    hide Run, At;
    deadline := OneBefore(board, level, es, k);
    AfterTheLast(board, level, es, deadline, k);
    clock := OneBefore(board, level, es, deadline);
    AfterTheLast(board, level, es, clock, deadline);
    override := OneBefore(board, level, es, clock);
    AfterTheLast(board, level, es, override, clock);
    start := OneBefore(board, level, es, override);
    AfterTheLast(board, level, es, start, override);
    count := OneBefore(board, level, es, start);
    AfterTheLast(board, level, es, count, start);
  }

  lemma ExpiredTurnTakesBack(
    board: Board, level: Byte, es: seq<Event>, count: nat, start: nat, override: nat, clock: nat, deadline: nat, k: nat)
    requires Run(board, level, es).Some? && k < |es|
    requires ExpiredTurn(board, level, es, count, start, override, clock, deadline, k)
    ensures TakesBack(board, level, es, k)
  {
    hide Run, At;
    AfterTheLast(board, level, es, count, start);
    AfterTheLast(board, level, es, start, override);
    AfterTheLast(board, level, es, override, clock);
    AfterTheLast(board, level, es, clock, deadline);
    AfterTheLast(board, level, es, deadline, k);
  }

  /** Core 1 takes an override back exactly in a turn whose load of the count found it above zero, whose load of
      the override found one, and whose clock was past the deadline when that was tested - whatever core 0
      does in between. */
  lemma TakenBackExactlyWhen(board: Board, level: Byte, es: seq<Event>, k: nat)
    requires Run(board, level, es).Some? && k < |es|
    ensures
      TakesBack(board, level, es, k)
      <==> exists count, start, override, clock, deadline ::
             ExpiredTurn(board, level, es, count, start, override, clock, deadline, k)
    ensures TakesBack(board, level, es, k) ==>
      At(board, level, es, k + 1).cells == At(board, level, es, k).cells.(override := NONE)
  {
    hide Run, At, ExpiredTurn;
    if TakesBack(board, level, es, k) {
      AtNext(board, level, es, k);
      var count, start, override, clock, deadline := TakenBackInAnExpiredTurn(board, level, es, k);
    }
    forall count, start, override, clock, deadline |
      ExpiredTurn(board, level, es, count, start, override, clock, deadline, k)
      ensures TakesBack(board, level, es, k)
    {
      ExpiredTurnTakesBack(board, level, es, count, start, override, clock, deadline, k);
    }
  }

  /** Neither core announces anything in `more`, which follows `es`. */
  predicate NothingAnnounced(board: Board, level: Byte, es: seq<Event>, more: seq<Event>) {
    more == [] ||
    var before := Run(board, level, es + more[..|more| - 1]);
    && NothingAnnounced(board, level, es, more[..|more| - 1])
    && before.Some? && !Announces(before.value, Last(more)) && Step(before.value, Last(more)).Some?
  }

  /** So once both buffers are written nothing looks at the deadline, however long, until core 0 announces
      something: core 1 changes no setting, and an override that core 0 does not change stays. */
  lemma {:induction false} TheOverrideOutlivesItsDeadline(board: Board, level: Byte, es: seq<Event>, more: seq<Event>)
    requires Run(board, level, es).Some? && NothingAnnounced(board, level, es, more)
    requires var s := Run(board, level, es).value;
      !InTurn(s.pc) && s.dirty == 0
    ensures Run(board, level, es + more).Some?
    ensures
      var s, t := Run(board, level, es).value, Run(board, level, es + more).value;
      t.dirty == 0 && !InTurn(t.pc) && ((forall e :: e in more ==> !e.Core0?) ==> t.cells == s.cells)
    ensures forall k :: |es| <= k < |es + more| ==> !TakesBack(board, level, es + more, k)
  {
    hide Run, At;
    if more == [] {
      assert es + more == es;
    } else {
      var before := more[..|more| - 1];
      var s, e := Run(board, level, es + before).value, Last(more);
      TheOverrideOutlivesItsDeadline(board, level, es, before);
      assert e in more && forall x :: x in before ==> x in more;
      assert es + more == es + before + [e];
      Goes(board, level, es + before, s, e);
      var all := es + before;
      SameBefore(board, level, all, e);
      assert es + more == all + [e];
      forall k: nat | |es| <= k < |es + more| ensures !TakesBack(board, level, es + more, k) {
        if k < |all| {
          assert !TakesBack(board, level, all, k);
          assert (all + [e])[k] == all[k];
        }
      }
    }
  }

  lemma SameBefore(board: Board, level: Byte, es: seq<Event>, e: Event)
    requires Run(board, level, es + [e]).Some? && Run(board, level, es).Some?
    ensures forall k: nat :: k <= |es| ==> At(board, level, es + [e], k) == At(board, level, es, k)
    ensures At(board, level, es, |es|) == Run(board, level, es).value
  {
    hide Run;
    assert es[..|es|] == es;
    forall k: nat | k <= |es| ensures At(board, level, es + [e], k) == At(board, level, es, k) {
      assert (es + [e])[..k] == es[..k];
    }
  }

  /** And there is such a run: an override is set, both buffers show it, and its time is up. */
  lemma AnOverrideOutOfTime() returns (es: seq<Event>, s: State)
    ensures Run(SOME_BOARD, 96, es) == Some(s) && Settled(s) && s.pc == Top && s.dirty == 0
    ensures s.cells == Cells(8, 50, 10_000, NONE, 96) && s.now == 10_001 && s.board == SOME_BOARD
    ensures BothShow(s, Lit(SOME_BOARD, 8, 50)) && Passed(s.now, s.cells.deadline)
  {
    hide Run, Advanced, Lit;
    s := Boot(SOME_BOARD, 96);
    BootRuns(SOME_BOARD, 96);
    es := HandlerRuns(SOME_BOARD, 96, [], s, SetOverride(50));
    s := Handled(s, SetOverride(50));
    es := Advances(SOME_BOARD, 96, es, s, 8);
    Turned(s);
    s := Advanced(s, 8);
    es := Advances(SOME_BOARD, 96, es, s, 8);
    Turned(s);
    s := Advanced(s, 8);
    es := More(SOME_BOARD, 96, es, s, Tick(10_001), s.(now := 10_001));
    s := s.(now := 10_001);
  }

  /** Core 1 is about to take an override back, and core 0 does nothing: two turns later both buffers show the
      window without it. */
  lemma TakenBack(s: State) returns (t: State)
    requires s.pc.TakingBack? && s.pc.start == s.cells.start && s.cells.screen == NONE && s.todo == []
    ensures t == Advanced(Advanced(s, 7), 8) && t.cells == s.cells.(override := NONE) && t.now == s.now
    ensures t.pc.Top? && t.dirty == 0 && t.todo == []
    ensures BothShow(t, Lit(s.board, s.cells.start, SlotsFor(s.board, s.cells.level)))
  {
    hide Advanced, Lit, SlotsFor, Passed;
    t := s;
    var cells := s.cells.(override := NONE);
    var slots := SlotsFor(s.board, s.cells.level);
    var w := Lit(s.board, s.cells.start, slots);
    for i := 0 to 7
      invariant Advanced(s, 7) == Advanced(t, 7 - i)
      invariant i > 0 ==> t.cells == cells
      invariant t.board == s.board && t.now == s.now && t.todo == []
      invariant
        match t.pc
        case TakingBack(_) => i == 0 && t == s
        case Telling(start) => i == 1 && start == s.cells.start
        case Screening(start) => i == 2 && start == s.cells.start && t.dirty == 2
        case Levelling(start) => i == 3 && start == s.cells.start && t.dirty == 2
        case Writing(start, lit) => i == 4 && start == s.cells.start && lit == slots && t.dirty == 2
        case Subtracting => i == 5 && t.mine == w && t.dirty == 2
        case Swapping => i == 6 && t.mine == w && t.dirty == 1
        case Top => i == 7 && t.other == w && t.dirty == 1
        case _ => false
    {
      OneAdvance(t, 7 - i);
      t := Advance(t, false);
    }
    OneAdvance(t, 0);
    Turned(t);
    t := Advanced(t, 8);
  }

  /** The run ends settled without an override, though one was asked for and its time is not up. */
  ghost predicate LosesOverride(es: seq<Event>, v: Byte) {
    && Handle(SetOverride(v)) in es
    && var s := Run(SOME_BOARD, 96, es);
      && s.Some? && Settled(s.value) && s.value.dirty == 0
      && s.value.cells.override == NONE && s.value.now < s.value.cells.deadline < HALF
  }

  /** An override set after core 1 has found the one before it out of time is taken back in its place. */
  lemma AFreshOverrideIsTakenBack() returns (es: seq<Event>)
    ensures LosesOverride(es, 70)
  {
    hide Run, Lit, Advanced;
    var s: State;
    es, s := AnOverrideOutOfTime();
    es := HandlerRuns(SOME_BOARD, 96, es, s, SetStart(9));
    s := Handled(s, SetStart(9));
    es := Advances(SOME_BOARD, 96, es, s, 5);
    FindsItOutOfTime(s);
    s := s.(pc := TakingBack(9));
    var n := |es|;
    es := HandlerRuns(SOME_BOARD, 96, es, s, SetOverride(70));
    s := Handled(s, SetOverride(70));
    assert es[n] == Handle(SetOverride(70));
    es := GetsTakenBack(es, s, 70);
  }

  lemma FindsItOutOfTime(s: State)
    requires s.pc.Top? && s.dirty > 0 && s.cells.override != NONE && Passed(s.now, s.cells.deadline)
    ensures Advanced(s, 5) == s.(pc := TakingBack(s.cells.start))
  {
    hide Advanced, Passed;
    var t := s;
    for i := 0 to 5
      invariant Advanced(s, 5) == Advanced(t, 5 - i) && t == s.(pc := t.pc)
      invariant
        match t.pc
        case Top => i == 0
        case Starting => i == 1
        case Overriding(start) => i == 2 && start == s.cells.start
        case Clocking(start, raw) => i == 3 && start == s.cells.start && raw == s.cells.override
        case Testing(start, raw, at) => i == 4 && start == s.cells.start && raw == s.cells.override && at == s.now
        case TakingBack(start) => i == 5 && start == s.cells.start
        case _ => false
    {
      OneAdvance(t, 5 - i);
      t := Advance(t, false);
    }
    OneAdvance(t, 0);
  }

  lemma GetsTakenBack(es: seq<Event>, s: State, v: Byte) returns (longer: seq<Event>)
    requires Run(SOME_BOARD, 96, es) == Some(s) && Handle(SetOverride(v)) in es
    requires s.pc.TakingBack? && s.pc.start == s.cells.start && s.cells.screen == NONE && s.todo == []
    requires s.now < s.cells.deadline < HALF
    ensures LosesOverride(longer, v)
  {
    hide Run, Advanced, Advance, Lit;
    longer := Advances(SOME_BOARD, 96, es, s, 7);
    longer := Advances(SOME_BOARD, 96, longer, Advanced(s, 7), 8);
    var t := TakenBack(s);
  }

  /** A handler has stored an override and not yet its deadline, and core 1 has found it out of time. */
  lemma JudgedTooEarly() returns (es: seq<Event>, s: State)
    ensures Run(SOME_BOARD, 96, es) == Some(s) && Handle(SetOverride(50)) in es
    ensures s.cells == Cells(9, 50, 0, NONE, 96) && s.now == 1000 && s.pc == TakingBack(9)
    ensures s.todo == [TakeTime, PutDeadline(0), Announce]
  {
    hide Run, Lit, Advanced;
    s := Boot(SOME_BOARD, 96);
    BootRuns(SOME_BOARD, 96);
    es := More(SOME_BOARD, 96, [], s, Tick(1000), s.(now := 1000));
    s := s.(now := 1000);
    es := HandlerRuns(SOME_BOARD, 96, es, s, SetStart(9));
    s := Handled(s, SetStart(9));
    var n, h := |es|, SetOverride(50);
    var todo := Accesses(s.cells, h);
    es := More(SOME_BOARD, 96, es, s, Handle(h), s.(todo := todo));
    s := s.(todo := todo);
    es := More(SOME_BOARD, 96, es, s, Core0, s.(todo := todo[1..], cells := s.cells.(override := 50)));
    s := s.(todo := todo[1..], cells := s.cells.(override := 50));
    es := Advances(SOME_BOARD, 96, es, s, 5);
    FindsItOutOfTime(s);
    s := s.(pc := TakingBack(9));
    assert es[n] == Handle(h);
  }

  /** An override core 1 finds before core 0 has stored its deadline is judged by the deadline before it. */
  lemma TheDeadlineBeforeItCounts() returns (es: seq<Event>)
    ensures LosesOverride(es, 50)
  {
    hide Run, Finished;
    var s: State;
    es, s := JudgedTooEarly();
    DeadlineIsStored(s);
    es := Finishes(SOME_BOARD, 96, es, s);
    es := GetsTakenBack(es, Finished(s), 50);
  }

  lemma DeadlineIsStored(s: State)
    requires s.todo == [TakeTime, PutDeadline(0), Announce]
    ensures Finished(s) ==
      s.(todo := [], cells := s.cells.(deadline := (s.now + TIME_BOX_MS) % WRAP), dirty := 2)
  {
    var t := Perform(s);
    assert t.todo == [PutDeadline((s.now + TIME_BOX_MS) % WRAP), Announce];
    assert Perform(t).todo == [Announce];
    assert Finished(s) == Finished(t) == Finished(Perform(t)) == Perform(Perform(t));
  }

  // -------------------------------------------------------------------------
  // The code
  // -------------------------------------------------------------------------

  /** The shared cells, the clock and the two buffers, between a handler and a turn of the display task.
      `es` is the run so far. */
  class Display {
    const board: Board
    var cells: Cells
    var now: nat
    var dirty: int
    var mine: Window
    var other: Window
    ghost const first: Byte
    ghost var es: seq<Event>

    ghost function Now(pc: Pc): State
      reads this
    {
      State(board, cells, now, dirty, [], pc, mine, other)
    }

    /** The run has come to where core 1 is about to make this access, and has missed nothing. */
    ghost predicate Doing(pc: Pc)
      reads this
    {
      Run(board, first, es) == Some(Now(pc)) && !Missed(board, first, es)
    }

    ghost predicate Valid()
      reads this
    {
      Doing(Top)
    }

    constructor (board: Board, level: Byte)
      ensures Valid() && Now(Top) == Boot(board, level)
    {
      var w := Lit(board, board.start, SlotsFor(board, level));
      this.board, first, es := board, level, [];
      cells, now, dirty, mine, other := Cells(board.start, NONE, 0, NONE, level), 0, 0, w, w;
      new;
      BootRuns(board, level);
    }

    /** With the count at zero both buffers show what is set, whatever handlers and turns came before. */
    lemma ShowsWhatIsSet()
      requires Valid() && dirty == 0
      ensures BothShow(Now(Top), Aim(board, cells))
    {
      hide Run, Missed, Aim;
      BothBuffersExactlyWhenNotMissed(board, first, es);
    }

    method Wait(ms: nat)
      requires Valid()
      modifies this`now, this`es
      ensures Valid() && now == old(now) + ms
    {
      hide Run, Missed;
      Goes(board, first, es, Now(Top), Tick(ms));
      es := es + [Tick(ms)];
      now := now + ms;
    }

    /** SET_BRIGHTNESS: a new level also ends an override. */
    method SetLevel(applied: Byte)
      requires Valid()
      modifies this`cells, this`dirty, this`es
      ensures Valid() && Now(Top) == Handled(old(Now(Top)), SetBrightness(applied))
    {
      hide Run, Missed;
      es := HandlerRuns(board, first, es, Now(Top), SetBrightness(applied));
      if applied != cells.level {
        cells := cells.(level := applied);
        cells := cells.(override := NONE);
        dirty := 2;
      }
    }

    method SetWindowStart(v: Byte)
      requires Valid()
      modifies this`cells, this`dirty, this`es
      ensures Valid() && Now(Top) == Handled(old(Now(Top)), SetStart(v))
    {
      hide Run, Missed;
      es := HandlerRuns(board, first, es, Now(Top), SetStart(v));
      cells := cells.(start := v);
      dirty := 2;
    }

    method SetTimedOverride(v: Byte)
      requires Valid()
      modifies this`cells, this`dirty, this`es
      ensures Valid() && Now(Top) == Handled(old(Now(Top)), SetOverride(v))
    {
      hide Run, Missed;
      es := HandlerRuns(board, first, es, Now(Top), SetOverride(v));
      cells := cells.(override := v);
      cells := cells.(deadline := (now + TIME_BOX_MS) % WRAP);
      dirty := 2;
    }

    method SetScreenLevel(v: Byte)
      requires Valid()
      modifies this`cells, this`dirty, this`es
      ensures Valid() && Now(Top) == Handled(old(Now(Top)), SetScreen(v))
    {
      hide Run, Missed;
      es := HandlerRuns(board, first, es, Now(Top), SetScreen(v));
      if v != cells.screen {
        cells := cells.(screen := v);
        dirty := 2;
      }
    }

    /** Core 1's next access leaves things as they are and takes it from `pc` to `next`. */
    ghost method Looks(pc: Pc, next: Pc, due: bool)
      requires Doing(pc) && Advance(Now(pc), due) == Now(next) && !pc.Telling?
      modifies this`es
      ensures Doing(next)
    {
      hide Run, Missed, Advance;
      Goes(board, first, es, Now(pc), Core1(due));
      es := es + [Core1(due)];
    }

    /** The slots to light: the override's while its time lasts, or the screen's, or the setting's. */
    method Target(ghost start: Byte) returns (slots: nat)
      requires Doing(Overriding(start)) && start == cells.start && dirty > 0
      modifies this`cells, this`dirty, this`es
      ensures Doing(Writing(start, slots)) && Lit(board, start, slots) == Aim(board, cells)
      ensures
        var up := old(cells.override) != NONE && Passed(now, old(cells.deadline));
        && cells == (if up then old(cells).(override := NONE) else old(cells))
        && dirty == if up then 2 else old(dirty)
    {
      hide Run, Missed, Lit, SlotsFor, Passed;
      var raw := cells.override;
      if raw != NONE {
        Looks(Overriding(start), Clocking(start, raw), false);
        var at := now;
        Looks(Clocking(start, raw), Testing(start, raw, at), false);
        if Passed(at, cells.deadline) {
          Looks(Testing(start, raw, at), TakingBack(start), false);
          TakeBack(start);
        } else {
          Looks(Testing(start, raw, at), Writing(start, raw), false);
          return raw;
        }
      } else {
        Looks(Overriding(start), Screening(start), false);
      }
      var fixed := cells.screen;
      if fixed != NONE {
        slots := ScreenSlots(board, fixed);
        Looks(Screening(start), Writing(start, slots), false);
        return;
      }
      Looks(Screening(start), Levelling(start), false);
      slots := SlotsFor(board, cells.level);
      Looks(Levelling(start), Writing(start, slots), false);
    }

    /** Ends an override whose time is up. */
    method TakeBack(ghost start: Byte)
      requires Doing(TakingBack(start)) && start == cells.start
      modifies this`cells, this`dirty, this`es
      ensures Doing(Screening(start)) && cells == old(cells).(override := NONE) && dirty == 2
    {
      hide Run, Missed, Aim;
      Goes(board, first, es, Now(TakingBack(start)), Core1(false));
      es := es + [Core1(false)];
      cells := cells.(override := NONE);
      Goes(board, first, es, Now(Telling(start)), Core1(false));
      es := es + [Core1(false)];
      dirty := 2;
    }

    /** Writes the window into the buffer at hand and counts one off. */
    method Refresh()
      requires Doing(Starting) && dirty > 0
      modifies this`cells, this`dirty, this`es, this`mine
      ensures Doing(Swapping) && mine == Aim(board, cells)
      ensures
        var up := old(cells.override) != NONE && Passed(now, old(cells.deadline));
        && cells == (if up then old(cells).(override := NONE) else old(cells))
        && dirty == if up then 1 else old(dirty) - 1
    {
      hide Run, Missed, Lit, Aim, Passed;
      var start := cells.start;
      Looks(Starting, Overriding(start), false);
      var slots := Target(start);
      Goes(board, first, es, Now(Writing(start, slots)), Core1(false));
      es := es + [Core1(false)];
      mine := Lit(board, start, slots);
      Goes(board, first, es, Now(Subtracting), Core1(false));
      es := es + [Core1(false)];
      dirty := dirty - 1;
    }

    /** One turn of the display task's loop, `due` being whether it has a frame to draw in any case. With the
        count above zero the buffer that goes to the panel shows what is set, and an override is taken back
        exactly when its time is up. */
    method Turn(due: bool)
      requires Valid()
      modifies this`cells, this`dirty, this`es, this`mine, this`other
      ensures Valid()
      ensures
        var counted := old(dirty) > 0;
        var up := counted && old(cells.override) != NONE && Passed(now, old(cells.deadline));
        && cells == (if up then old(cells).(override := NONE) else old(cells))
        && dirty == (if up then 1 else if counted then old(dirty) - 1 else old(dirty))
        && mine == (if counted || due then old(other) else old(mine))
        && other == if counted then Aim(board, cells) else if due then old(mine) else old(other)
    {
      hide Run, Missed, Lit, Aim, Passed;
      var counted := dirty > 0;
      if !counted && !due {
        Looks(Top, Top, false);
        return;
      }
      if counted {
        Looks(Top, Starting, due);
        Refresh();
      } else {
        Looks(Top, Swapping, due);
      }
      Goes(board, first, es, Now(Swapping), Core1(false));
      es := es + [Core1(false)];
      mine, other := other, mine;
    }
  }
}
