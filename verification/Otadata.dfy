/** `otadata`: the two selection entries, the boot loader's reading of them, the flash crate's
    arithmetic on them, and the firmware's pure decisions. */
module Otadata {
  import opened Common

  type SlotNo = n: nat | n < 2

  datatype FwState = New | PendingVerify | Valid | Invalid | Aborted | Undefined

  datatype FwSlot = Ota0 | Ota1 | Unknown

  function SlotWord(n: SlotNo): FwSlot {
    if n == 0 then Ota0 else Ota1
  }

  // -------------------------------------------------------------------------
  // The pure decisions
  // -------------------------------------------------------------------------

  const CONFIRM_NOT_BEFORE_MS: nat := 60_000
  const HTTP_GRACE_MS: nat := 120_000
  const REVERT_AT_MS: nat := 180_000

  datatype Health = Health(uptimeMs: nat, hasIp: bool, httpRequests: nat, swaps: nat)

  predicate IsHealthy(h: Health) {
    h.hasIp && h.swaps > 0 && (h.httpRequests > 0 || h.uptimeMs >= HTTP_GRACE_MS)
  }

  datatype TrialAction = Wait | Confirm | Revert

  function Decide(h: Health): TrialAction {
    if h.uptimeMs >= CONFIRM_NOT_BEFORE_MS && IsHealthy(h) then Confirm
    else if h.uptimeMs >= REVERT_AT_MS then Revert
    else Wait
  }

  datatype RevertReason = Deadline | ByReset | Rejected

  datatype Class = Settled | Trial | Unproven | Reverted(why: RevertReason) | Unclassified

  predicate OnTrial(c: Class) {
    c.Trial? || c.Unproven?
  }

  function Classify(booted: FwSlot, selected: FwSlot, state: FwState): Class {
    if booted.Unknown? || selected.Unknown? then Unclassified
    else if booted != selected then
      Reverted(match state
               case Invalid => Deadline
               case Aborted => ByReset
               case _ => Rejected)
    else match state
      case PendingVerify => Trial
      case New => Trial
      case Undefined => Unproven
      case Valid => Settled
      case Invalid => Reverted(Deadline)
      case Aborted => Reverted(ByReset)
  }

  predicate SlotIsSpokenFor(c: Class, confirmed: bool, activating: bool) {
    activating || (OnTrial(c) && !confirmed)
  }

  // -------------------------------------------------------------------------
  // The entries
  // -------------------------------------------------------------------------

  /** The sequence an erased entry reads as. */
  const UNINITIALIZED: nat := 0xFFFF_FFFF

  datatype Entry = Erased | Torn | Live(seqNo: nat, state: FwState)

  /** How a write that was cut half way leaves its entry. */
  datatype Damage = LeftErased | LeftTorn

  function Damaged(d: Damage): Entry {
    if d.LeftErased? then Erased else Torn
  }

  function SeqOf(e: Entry): nat {
    if e.Live? then e.seqNo else UNINITIALIZED
  }

  function StateOf(e: Entry): FwState {
    if e.Live? then e.state else Undefined
  }

  /** The app slot a live entry selects: its number less one, wrapping, modulo the two slots. */
  function Names(e: Entry): SlotNo
    requires e.Live?
  {
    (e.seqNo + 1) % 2
  }

  predicate IsInvalid(e: Entry) {
    e.Erased? || (e.Live? && (e.seqNo == UNINITIALIZED || e.state.Invalid? || e.state.Aborted?))
  }

  predicate IsValid(e: Entry) {
    !IsInvalid(e) && !e.Torn?
  }

  predicate IsInitial(e: Entry) {
    e.Live? ==> e.seqNo == UNINITIALIZED
  }

  /** The two entries, each in a sector of its own. */
  datatype Entries = Entries(zero: Entry, one: Entry) {
    function Get(i: SlotNo): Entry {
      if i == 0 then zero else one
    }

    function Put(i: SlotNo, e: Entry): Entries {
      if i == 0 then this.(zero := e) else this.(one := e)
    }
  }

  /** Every live sequence number is below the pattern an erased entry reads as. */
  predicate Numbered(d: Entries) {
    && (d.zero.Live? ==> d.zero.seqNo < UNINITIALIZED)
    && (d.one.Live? ==> d.one.seqNo < UNINITIALIZED)
  }

  // -------------------------------------------------------------------------
  // The flash crate's calls: they go by the sequence numbers and look at no state
  // -------------------------------------------------------------------------

  datatype OtaError = Unreadable | NoSelection

  predicate Readable(d: Entries) {
    !d.zero.Torn? && !d.one.Torn?
  }

  predicate NothingSelected(d: Entries) {
    SeqOf(d.zero) == UNINITIALIZED && SeqOf(d.one) == UNINITIALIZED
  }

  /** Which entry the crate considers current. */
  function CurrentEntry(d: Entries): SlotNo {
    if NothingSelected(d) then 0
    else if SeqOf(d.zero) == UNINITIALIZED then 1
    else if SeqOf(d.one) == UNINITIALIZED || SeqOf(d.zero) > SeqOf(d.one) then 0
    else 1
  }

  function CurrentApp(d: Entries): Result<Option<SlotNo>, OtaError>
    requires Numbered(d)
  {
    if !Readable(d) then Err(Unreadable)
    else if NothingSelected(d) then Ok(None)
    else Ok(Some(Names(d.Get(CurrentEntry(d)))))
  }

  function CurrentState(d: Entries): Result<FwState, OtaError> {
    if !Readable(d) then Err(Unreadable)
    else if NothingSelected(d) then Err(NoSelection)
    else Ok(StateOf(d.Get(CurrentEntry(d))))
  }

  /** One entry about to be rewritten: which, and with what. */
  datatype Write = Write(at: SlotNo, entry: Entry)

  /** Selecting `app`: no write when the sequence numbers already select it; otherwise the entry
      that is not current gets a higher number and keeps the state it had. */
  function SelectApp(d: Entries, app: SlotNo): Result<Option<Write>, OtaError>
    requires Numbered(d)
  {
    match CurrentApp(d)
    case Err(e) => Err(e)
    case Ok(current) =>
      if current == Some(app) then Ok(None)
      else
        var inc := if current.None? then (app + 1) % 2 else (app + 2 - current.value) % 2;
        var target: SlotNo := (CurrentEntry(d) + 1) % 2;
        var top := if NothingSelected(d) then 0 else SeqOf(d.Get(CurrentEntry(d)));
        Ok(Some(Write(target, Live(top + inc, StateOf(d.Get(target))))))
  }

  /** Marking the current entry. */
  function SetState(d: Entries, state: FwState): Result<Write, OtaError> {
    if !Readable(d) then Err(Unreadable)
    else if NothingSelected(d) then Err(NoSelection)
    else
      var i := CurrentEntry(d);
      Ok(Write(i, Live(SeqOf(d.Get(i)), state)))
  }

  // -------------------------------------------------------------------------
  // The boot loader
  // -------------------------------------------------------------------------

  /** The valid entry with the highest sequence, if either is valid. */
  function Active(d: Entries): Option<SlotNo> {
    if IsValid(d.zero) && IsValid(d.one) then Some(if SeqOf(d.zero) > SeqOf(d.one) then 0 else 1)
    else if IsValid(d.zero) then Some(0)
    else if IsValid(d.one) then Some(1)
    else None
  }

  /** The slot it tries first; the other one is tried if that image does not verify. */
  function FirstChoice(d: Entries): SlotNo
    requires Numbered(d)
  {
    match Active(d)
    case None => 0
    case Some(i) => Names(d.Get(i))
  }

  /** An entry the boot loader will go by. */
  predicate Usable(e: Entry) {
    e.Live? && e.seqNo != 0xFFFF_FFFF && !e.state.Invalid? && !e.state.Aborted?
  }

  /** The boot loader goes by the higher number of those it can, by entry one if they are equal, and odd numbers are the
      first app slot's; with neither it begins with the first slot. */
  lemma FirstChoiceExactly(d: Entries, i: SlotNo)
    requires (d.zero.Live? ==> d.zero.seqNo < 0xFFFF_FFFF) && (d.one.Live? ==> d.one.seqNo < 0xFFFF_FFFF)
    ensures Numbered(d)
    ensures !Usable(d.zero) && !Usable(d.one) ==> SlotWord(FirstChoice(d)) == Ota0
    ensures
      var e, other := d.Get(i), d.Get(1 - i);
      Usable(e) && (!Usable(other) || other.seqNo < e.seqNo || (other.seqNo == e.seqNo && i == 1)) ==>
        SlotWord(FirstChoice(d)) == if e.seqNo % 2 == 1 then Ota0 else Ota1
  {
  }

  /** The number a selection writes, to the entry that is not current, is the lowest above the current one that is the
      slot's: of any two numbers one is. */
  lemma SelectsTheNextNumber(d: Entries, app: SlotNo)
    requires Numbered(d) && Readable(d)
    ensures
      var low := if NothingSelected(d) then 0 else d.Get(CurrentEntry(d)).seqNo + 1;
      if !NothingSelected(d) && (low % 2 == 0 <==> app == 0) then SelectApp(d, app) == Ok(None)
      else
        SelectApp(d, app).Ok? && SelectApp(d, app).value.Some? &&
        var w := SelectApp(d, app).value.value;
        && w.at != CurrentEntry(d) && w.entry.Live? && w.entry.state == StateOf(d.Get(w.at))
        && low <= w.entry.seqNo && (w.entry.seqNo % 2 == 1 <==> app == 0)
        && forall n :: low <= n < w.entry.seqNo ==> (n % 2 == 0 <==> app == 0)
  {
  }
}
