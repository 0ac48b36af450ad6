/** Activate, boot on trial, confirm or revert - with the power allowed to go at any instant.

    A run is a sequence of events: boot-loader steps, the firmware's flash writes, uploads, and
    resets anywhere, including inside a write. Each slot's image carries two facts: whether the
    boot loader's own verification accepts it, and whether somebody vouches for it - it was put
    there over serial, or it confirmed itself on a trial boot. */
module Rollback {
  import opened Common
  import opened Otadata

  datatype Image = Image(bootable: bool, vouched: bool)

  datatype Images = Images(zero: Image, one: Image) {
    function Get(i: SlotNo): Image {
      if i == 0 then zero else one
    }

    function Put(i: SlotNo, m: Image): Images {
      if i == 0 then this.(zero := m) else this.(one := m)
    }
  }

  function Other(i: SlotNo): SlotNo {
    1 - i
  }

  /** The boot loader's four writes in order, the firmware's classification, and running code.
      `midway` is the instant between the two writes of an activation. `alive` is the activation
      task: it serves one request and is gone if that one fails. */
  datatype Phase =
    | AbortZero
    | AbortOne
    | MarkSelected
    | HandOver
    | NoteBoot(run: SlotNo)
    | Running(run: SlotNo, kind: Class, confirmed: bool, uploading: bool,
              activating: bool, midway: bool, alive: bool)
    | NothingBoots

  datatype Device = Device(entries: Entries, images: Images, phase: Phase)

  /** How one flash write goes. `Refused` leaves the entry alone and the device running. */
  datatype Fate = Done | Refused | Cut(damage: Damage)

  datatype Event =
    | Boot(fate: Fate)               // the boot loader's next step
    | Note(fate: Fate)               // the firmware classifies the boot
    | StartUpload(stale: bool)       // the claim is taken; the first sector is about to go
    | Stage(bootable: bool)          // a sector of the inactive slot is rewritten
    | EndUpload                      // the upload is refused or its socket goes away
    | Accept(activate: bool)         // every check passed
    | Select(fate: Fate)             // activation, first write
    | MarkNew(fate: Fate)            // activation, second write
    | Tick(h: Health, fate: Fate)    // the trial task wakes up
    | PowerLoss

  function Reset(d: Device): Device {
    d.(phase := AbortZero)
  }

  /** A device after a serial flash: an image in slot 0, nothing in slot 1, `otadata` erased. */
  function Flashed(): Device {
    Device(Entries(Erased, Erased), Images(Image(true, true), Image(false, false)), AbortZero)
  }

  // -------------------------------------------------------------------------
  // Steps
  // -------------------------------------------------------------------------

  /** One entry write under `fate`; `next` is where the device goes if it is not cut. */
  function Written(d: Device, w: Write, fate: Fate, next: Phase, refused: Phase): Device {
    match fate
    case Done => d.(entries := d.entries.Put(w.at, w.entry), phase := next)
    case Refused => d.(phase := refused)
    case Cut(g) => Reset(d.(entries := d.entries.Put(w.at, Damaged(g))))
  }

  /** An entry still on trial at a reset is given up, whatever caused the reset. */
  function AbortStep(d: Device, i: SlotNo, fate: Fate, next: Phase): (r: Device)
    ensures Numbered(d.entries) ==> Numbered(r.entries)
  {
    var e := d.entries.Get(i);
    if e.Live? && e.state.PendingVerify?
    then Written(d, Write(i, e.(state := Aborted)), fate, next, next)
    else d.(phase := next)
  }

  function MarkStep(d: Device, fate: Fate): (r: Device)
    ensures Numbered(d.entries) ==> Numbered(r.entries)
  {
    match Active(d.entries)
    case None => d.(phase := HandOver)
    case Some(i) =>
      var e := d.entries.Get(i);
      if e.Live? && e.state.New?
      then Written(d, Write(i, e.(state := PendingVerify)), fate, HandOver, HandOver)
      else d.(phase := HandOver)
  }

  /** The slot that runs: the first choice if its image verifies, else the other. */
  function Booted(d: Device): Option<SlotNo>
    requires Numbered(d.entries)
  {
    var first := FirstChoice(d.entries);
    if d.images.Get(first).bootable then Some(first)
    else if d.images.Get(Other(first)).bootable then Some(Other(first))
    else None
  }

  /** With nothing usable in `otadata` the boot loader writes a fresh first entry of its own. */
  function HandOverStep(d: Device, fate: Fate): Device
    requires Numbered(d.entries)
  {
    match Booted(d)
    case None => d.(phase := NothingBoots)
    case Some(run) =>
      if IsInitial(d.entries.zero) && IsInitial(d.entries.one)
      then Written(d, Write(0, Live(1, Valid)), fate, NoteBoot(run), NoteBoot(run))
      else d.(phase := NoteBoot(run))
  }

  function ClassOf(entries: Entries, run: SlotNo): Class
    requires Numbered(entries)
  {
    var selected :=
      match CurrentApp(entries)
      case Ok(Some(n)) => SlotWord(n)
      case _ => Unknown;
    var state :=
      match CurrentState(entries)
      case Ok(s) => s
      case Err(_) => Undefined;
    Classify(SlotWord(run), selected, state)
  }

  /** The firmware's classification, with the one write it may make: an image that is selected but
      was never marked is put on trial. */
  function NoteStep(d: Device, run: SlotNo, fate: Fate): Device
    requires Numbered(d.entries)
  {
    var kind := ClassOf(d.entries, run);
    var up := (c: Class) => Running(run, c, false, false, false, false, true);
    if kind.Unproven? then
      match SetState(d.entries, PendingVerify)
      case Err(_) => d.(phase := up(kind))
      case Ok(w) => Written(d, w, fate, up(Trial), up(kind))
    else d.(phase := up(kind))
  }

  function SelectStep(d: Device, fate: Fate): Device
    requires d.phase.Running? && Numbered(d.entries)
  {
    var p := d.phase;
    var failed := p.(activating := false, alive := false);
    match SelectApp(d.entries, Other(p.run))
    case Err(_) => d.(phase := failed)
    case Ok(None) => d.(phase := p.(midway := true))
    case Ok(Some(w)) => Written(d, w, fate, p.(midway := true), failed)
  }

  function MarkNewStep(d: Device, fate: Fate): Device
    requires d.phase.Running?
  {
    var failed := d.phase.(activating := false, midway := false, alive := false);
    match SetState(d.entries, New)
    case Err(_) => d.(phase := failed)
    case Ok(w) => Written(d, w, fate, AbortZero, failed)
  }

  function TickStep(d: Device, h: Health, fate: Fate): Device
    requires d.phase.Running?
  {
    var p := d.phase;
    match Decide(h)
    case Wait => d
    case Confirm => (
      match SetState(d.entries, Valid)
      case Err(_) => d
      case Ok(w) =>
        var after := Written(d, w, fate, p.(confirmed := true), p);
        if fate.Done?
        then after.(images := d.images.Put(p.run, d.images.Get(p.run).(vouched := true)))
        else after)
    case Revert =>
      match SetState(d.entries, Invalid)
      case Err(_) => Reset(d)
      case Ok(w) => Written(d, w, fate, AbortZero, AbortZero)
  }

  /** What each event needs. An upload is refused while the slot is spoken for and while another
      holds the claim; one that is to be activated also needs a readable `otadata` at boot. A `stale`
      upload was told the slot was free before the activation under way was asked for: the answer is
      not asked for again when the claim is taken. */
  predicate Enabled(d: Device, e: Event) {
    var p := d.phase;
    match e
    case Boot(fate) =>
      (p.AbortZero? || p.AbortOne? || p.MarkSelected? || p.HandOver?) && !fate.Refused?
    case Note(_) => p.NoteBoot?
    case StartUpload(stale) =>
      p.Running? && !p.uploading && !SlotIsSpokenFor(p.kind, p.confirmed, p.activating && !stale)
    case Stage(_) => p.Running? && p.uploading
    case EndUpload => p.Running? && p.uploading
    case Accept(activate) => p.Running? && p.uploading && (activate ==> !p.kind.Unclassified?)
    case Select(_) => p.Running? && p.activating && p.alive && !p.midway
    case MarkNew(_) => p.Running? && p.midway
    case Tick(_, _) => p.Running? && OnTrial(p.kind) && !p.confirmed
    case PowerLoss => true
  }

  function Step(d: Device, e: Event): Device
    requires Numbered(d.entries) && Enabled(d, e)
  {
    var p := d.phase;
    match e
    case Boot(fate) => (
      match p
      case AbortZero => AbortStep(d, 0, fate, AbortOne)
      case AbortOne => AbortStep(d, 1, fate, MarkSelected)
      case MarkSelected => MarkStep(d, fate)
      case _ => HandOverStep(d, fate))
    case Note(fate) => NoteStep(d, p.run, fate)
    case StartUpload(_) => d.(phase := p.(uploading := true))
    case Stage(b) => d.(images := d.images.Put(Other(p.run), Image(b, false)))
    case EndUpload => d.(phase := p.(uploading := false))
    case Accept(activate) => d.(phase := p.(uploading := false, activating := p.activating || activate))
    case Select(fate) => SelectStep(d, fate)
    case MarkNew(fate) => MarkNewStep(d, fate)
    case Tick(h, fate) => TickStep(d, h, fate)
    case PowerLoss => Reset(d)
  }

  /** The device after a run from a serial flash; `None` when an event is not enabled, or when the
      32-bit sequence numbers have run out. */
  function Run(es: seq<Event>): (d: Option<Device>)
    ensures d.Some? ==> Numbered(d.value.entries)
  {
    if es == [] then Some(Flashed())
    else
      match Run(es[..|es| - 1])
      case None => None
      case Some(d) =>
        if Enabled(d, Last(es)) && Numbered(Step(d, Last(es)).entries)
        then Some(Step(d, Last(es))) else None
  }

  lemma RunExtends(es: seq<Event>, e: Event)
    ensures Run(es + [e]) ==
      match Run(es)
      case None => None
      case Some(d) => if Enabled(d, e) && Numbered(Step(d, e).entries) then Some(Step(d, e)) else None
  {
    assert (es + [e])[..|es + [e]| - 1] == es;
  }

  // -------------------------------------------------------------------------
  // Every reset finds an image to boot
  // -------------------------------------------------------------------------

  /** The slot the code runs from holds a bootable image, and some slot always does. */
  predicate Floor(d: Device) {
    && (d.images.zero.bootable || d.images.one.bootable)
    && (d.phase.NoteBoot? || d.phase.Running? ==> d.images.Get(d.phase.run).bootable)
    && !d.phase.NothingBoots?
  }

  lemma FloorBoot(d: Device, e: Event)
    requires Numbered(d.entries) && Enabled(d, e) && Floor(d) && (e.Boot? || e.Note?)
    ensures Floor(Step(d, e))
  {
  }

  lemma FloorStep(d: Device, e: Event)
    requires Numbered(d.entries) && Enabled(d, e) && Floor(d)
    ensures Floor(Step(d, e))
  {
    if e.Boot? || e.Note? {
      FloorBoot(d, e);
    } else {
      hide AbortStep, MarkStep, HandOverStep, NoteStep, Classify, Decide;
    }
  }

  /** Whatever is interrupted, refused or staged: no reachable device fails to boot. */
  lemma {:induction false} SomethingAlwaysBoots(es: seq<Event>)
    requires Run(es).Some?
    ensures Floor(Run(es).value) && Booted(Run(es).value).Some?
    ensures
      var d := Run(es).value;
      !d.phase.NothingBoots? && (d.phase.Running? ==> d.images.Get(d.phase.run).bootable)
  {
    if es != [] {
      var before := es[..|es| - 1];
      SomethingAlwaysBoots(before);
      FloorStep(Run(before).value, Last(es));
    }
  }
}
