/** What the rollback machine guarantees, and the one interruption it does not survive. */
module RollbackSafety {
  import opened Common
  import opened Otadata
  import opened Rollback

  // -------------------------------------------------------------------------
  // The anchor: the VALID entry and the vouched image a rollback goes back to
  // -------------------------------------------------------------------------

  /** Entry `k` is VALID and names a bootable image somebody vouches for. The other entry is
      damaged or erased, or one number older and VALID too (the generation before), or one number
      newer and not VALID - unless an activation is between its two writes. */
  predicate Anchored(d: Device, k: SlotNo) {
    var a, o := d.entries.Get(k), d.entries.Get(Other(k));
    && a.Live? && a.state.Valid?
    && d.images.Get(Names(a)) == Image(true, true)
    && (o.Live? ==>
          || (o.seqNo + 1 == a.seqNo && o.state.Valid?)
          || (o.seqNo == a.seqNo + 1 && (o.state.Valid? ==> d.phase.Running? && d.phase.midway)))
  }

  /** The slot the anchor names, and the slot the other entry would name. */
  function Home(d: Device, k: SlotNo): SlotNo
    requires d.entries.Get(k).Live?
  {
    Names(d.entries.Get(k))
  }

  /** The other entry is newer and still undecided, so its slot is a candidate. */
  predicate Candidate(d: Device, k: SlotNo) {
    var a, o := d.entries.Get(k), d.entries.Get(Other(k));
    a.Live? && o.Live? && o.seqNo == a.seqNo + 1 && (o.state.PendingVerify? || o.state.Undefined?)
  }

  predicate PhaseOk(d: Device, k: SlotNo)
    requires d.entries.Get(k).Live?
  {
    var o := d.entries.Get(Other(k));
    match d.phase
    case AbortZero => true
    case AbortOne => !StateOf(d.entries.zero).PendingVerify?
    case MarkSelected => !StateOf(o).PendingVerify?
    case HandOver => !StateOf(o).New?
    case NoteBoot(run) => run != Home(d, k) ==> Candidate(d, k) && d.images.Get(run).bootable
    case NothingBoots => false
    case Running(run, kind, confirmed, uploading, activating, midway, alive) =>
      if run == Home(d, k) then
        && (OnTrial(kind) ==> confirmed)
        && (midway ==> activating && o.Live? && o.seqNo == d.entries.Get(k).seqNo + 1)
      else
        && Candidate(d, k) && d.images.Get(run).bootable
        && OnTrial(kind) && !confirmed && !uploading && !activating && !midway
  }

  predicate InvAt(d: Device, k: SlotNo) {
    Anchored(d, k) && PhaseOk(d, k)
  }

  /** Before the boot loader has ever written `otadata`. */
  predicate Untouched(d: Device) {
    && IsInitial(d.entries.zero) && IsInitial(d.entries.one) && !d.entries.one.Torn?
    && !d.entries.zero.Live? && !d.entries.one.Live?
    && d.images.zero == Image(true, true)
    && (d.phase.AbortZero? || d.phase.AbortOne? || d.phase.MarkSelected? || d.phase.HandOver?)
  }

  predicate Inv(d: Device) {
    Untouched(d) || InvAt(d, 0) || InvAt(d, 1)
  }

  // -------------------------------------------------------------------------
  // The hole
  // -------------------------------------------------------------------------

  /** Between the two writes of an activation, with the new sequence number already on an entry
      that kept the VALID of the image it used to name. */
  predicate Hole(d: Device) {
    d.phase.Running? && d.phase.midway && CurrentState(d.entries) == Ok(Valid)
  }

  /** The device is left in the hole: the power goes there, or the second write is refused. */
  predicate Slips(d: Device, e: Event) {
    Hole(d) && (e.PowerLoss? || e == MarkNew(Refused))
  }

  /** A run in which no event leaves the device in the hole. */
  predicate Careful(es: seq<Event>) {
    es == [] ||
    var before := es[..|es| - 1];
    Careful(before) && Run(before).Some? && !Slips(Run(before).value, Last(es))
  }

  // -------------------------------------------------------------------------
  // The invariant is kept
  // -------------------------------------------------------------------------

  lemma BootKeeps(d: Device, fate: Fate, k: SlotNo)
    requires Numbered(d.entries) && Enabled(d, Boot(fate)) && InvAt(d, k)
    requires Numbered(Step(d, Boot(fate)).entries)
    ensures InvAt(Step(d, Boot(fate)), k)
  {
  }

  lemma FirstBootKeeps(d: Device, fate: Fate)
    requires Numbered(d.entries) && Enabled(d, Boot(fate)) && Untouched(d)
    ensures Inv(Step(d, Boot(fate)))
  {
  }

  /** The flash crate's current entry, when there is an anchor: the newer of the two. */
  lemma AnchoredCurrent(d: Device, k: SlotNo)
    requires Numbered(d.entries) && Anchored(d, k)
    ensures
      var a, o := d.entries.Get(k), d.entries.Get(Other(k));
      && (Readable(d.entries) <==> !o.Torn?) && !NothingSelected(d.entries)
      && (!o.Torn? ==> CurrentEntry(d.entries) == if o.Live? && o.seqNo > a.seqNo then Other(k) else k)
      && (o.Live? && o.seqNo == a.seqNo + 1 ==> Names(o) == Other(Names(a)))
  {
  }

  lemma StateIsNoName(o: Entry)
    ensures o.Live? ==> forall s :: Names(Live(o.seqNo, s)) == Names(o)
  {
  }

  lemma NoteKeeps(d: Device, fate: Fate, k: SlotNo)
    requires Numbered(d.entries) && Enabled(d, Note(fate)) && InvAt(d, k)
    ensures InvAt(Step(d, Note(fate)), k)
  {
    hide Names, CurrentEntry, NothingSelected, Readable, Numbered;
    AnchoredCurrent(d, k);
  }

  lemma UploadKeeps(d: Device, e: Event, k: SlotNo)
    requires Numbered(d.entries) && Enabled(d, e) && InvAt(d, k)
    requires e.StartUpload? || e.Stage? || e.EndUpload? || e.Accept?
    ensures InvAt(Step(d, e), k)
  {
  }

  /** What selecting the slot that is not running writes, when the anchor's slot is running. */
  lemma SelectionWrites(d: Device, k: SlotNo)
    requires Numbered(d.entries) && Anchored(d, k)
    ensures
      var a, o := d.entries.Get(k), d.entries.Get(Other(k));
      SelectApp(d.entries, Other(Home(d, k))) ==
        if o.Torn? then Err(Unreadable)
        else if o.Live? && o.seqNo > a.seqNo then Ok(None)
        else Ok(Some(Write(Other(k), Live(a.seqNo + 1, StateOf(o)))))
  {
    var a, o := d.entries.Get(k), d.entries.Get(Other(k));
    if o.Live? && o.seqNo > a.seqNo {
      assert CurrentEntry(d.entries) == Other(k);
    } else if !o.Torn? {
      assert CurrentEntry(d.entries) == k;
    }
  }

  lemma SelectKeeps(d: Device, fate: Fate, k: SlotNo)
    requires Numbered(d.entries) && Enabled(d, Select(fate)) && InvAt(d, k)
    ensures InvAt(Step(d, Select(fate)), k)
  {
    SelectionWrites(d, k);
    var d' := Step(d, Select(fate));
    assert d'.images == d.images && d'.entries.Get(k) == d.entries.Get(k);
  }

  lemma MarkNewKeeps(d: Device, fate: Fate, k: SlotNo)
    requires Numbered(d.entries) && Enabled(d, MarkNew(fate)) && InvAt(d, k)
    requires !Slips(d, MarkNew(fate))
    ensures InvAt(Step(d, MarkNew(fate)), k)
  {
  }

  lemma PowerLossKeeps(d: Device, k: SlotNo)
    requires Numbered(d.entries) && InvAt(d, k) && !Slips(d, PowerLoss)
    ensures InvAt(Step(d, PowerLoss), k)
  {
  }

  /** A confirmed trial moves the anchor to its own entry; every other outcome leaves it. */
  lemma TickKeeps(d: Device, h: Health, fate: Fate, k: SlotNo)
    requires Numbered(d.entries) && Enabled(d, Tick(h, fate)) && InvAt(d, k)
    ensures InvAt(Step(d, Tick(h, fate)), if Decide(h).Confirm? && fate.Done? then Other(k) else k)
  {
    hide Names, CurrentEntry, NothingSelected, Readable, Numbered, Decide;
    AnchoredCurrent(d, k);
    StateIsNoName(d.entries.Get(Other(k)));
  }

  lemma InvStep(d: Device, e: Event)
    requires Numbered(d.entries) && Enabled(d, e) && Inv(d) && !Slips(d, e)
    requires Numbered(Step(d, e).entries)
    ensures Inv(Step(d, e))
  {
    if Untouched(d) {
      if e.Boot? {
        FirstBootKeeps(d, e.fate);
      }
    } else {
      var k: SlotNo := if InvAt(d, 0) then 0 else 1;
      match e {
        case Boot(fate) => BootKeeps(d, fate, k);
        case Note(fate) => NoteKeeps(d, fate, k);
        case Select(fate) => SelectKeeps(d, fate, k);
        case MarkNew(fate) => MarkNewKeeps(d, fate, k);
        case Tick(h, fate) => TickKeeps(d, h, fate, k);
        case PowerLoss => PowerLossKeeps(d, k);
        case _ => UploadKeeps(d, e, k);
      }
    }
  }

  lemma {:induction false} InvRun(es: seq<Event>)
    requires Run(es).Some? && Careful(es)
    ensures Inv(Run(es).value)
  {
    if es != [] {
      var before := es[..|es| - 1];
      InvRun(before);
      InvStep(Run(before).value, Last(es));
    }
  }

  // -------------------------------------------------------------------------
  // Main results: safety over every careful run
  // -------------------------------------------------------------------------

  /** The running image is vouched for, or it is on trial, undecided, with a way back: a VALID
      entry for the other slot, whose image is bootable and vouched for. */
  predicate Proven(d: Device) {
    d.phase.Running? ==>
      var run := d.phase.run;
      || d.images.Get(run).vouched
      || (OnTrial(d.phase.kind) && !d.phase.confirmed && WayBack(d, 0))
      || (OnTrial(d.phase.kind) && !d.phase.confirmed && WayBack(d, 1))
  }

  predicate WayBack(d: Device, k: SlotNo)
    requires d.phase.Running?
  {
    var a := d.entries.Get(k);
    a.Live? && a.state.Valid? && Names(a) == Other(d.phase.run) && d.images.Get(Names(a)) == Image(true, true)
  }

  lemma OnlyProvenImagesRun(es: seq<Event>)
    requires Run(es).Some? && Careful(es)
    ensures Proven(Run(es).value)
  {
    InvRun(es);
  }

  /** While a trial is undecided no event - confirm, revert, reset or a write cut half way - writes
      the entry or the image of the way back. */
  lemma WayBackIsNeverWritten(es: seq<Event>, e: Event, k: SlotNo)
    requires Careful(es) && Run(es).Some? && Run(es + [e]).Some?
    requires var d := Run(es).value;
      d.phase.Running? && OnTrial(d.phase.kind) && !d.phase.confirmed && WayBack(d, k)
    ensures var d, d' := Run(es).value, Run(es + [e]).value;
      d'.entries.Get(k) == d.entries.Get(k) &&
      d'.images.Get(Other(d.phase.run)) == d.images.Get(Other(d.phase.run))
  {
    RunExtends(es, e);
    InvRun(es);
    var d := Run(es).value;
    assert InvAt(d, k) || InvAt(d, Other(k));
  }

  /** What an image on trial has to have shown by now: a minute up, an address, the panel alive, and a request served
      or another minute gone by. */
  predicate Proves(h: Health) {
    h.uptimeMs >= 60_000 && h.hasIp && h.swaps > 0 && (h.httpRequests > 0 || h.uptimeMs >= 120_000)
  }

  lemma DecidesExactly(h: Health)
    ensures Decide(h).Confirm? <==>
      h.uptimeMs >= 60_000 && h.hasIp && h.swaps > 0 && (h.httpRequests > 0 || h.uptimeMs >= 120_000)
    ensures Decide(h).Revert? <==>
      h.uptimeMs >= 180_000 && !(h.hasIp && h.swaps > 0)
  {
  }

  /** In every run, what the trial task's turn does: with the write landing it makes the entry VALID and the image
      vouched for exactly when the image has proved itself, and gives the image up exactly when it has not in
      three minutes; a write that is refused changes no entry, and one that is cut is a reset. */
  lemma TrialIsDecidedExactly(es: seq<Event>, h: Health, fate: Fate)
    requires Careful(es) && Run(es).Some? && Enabled(Run(es).value, Tick(h, fate))
    ensures
      var d, d' := Run(es).value, Step(Run(es).value, Tick(h, fate));
      var i, run := CurrentEntry(d.entries), d.phase.run;
      var proves := h.uptimeMs >= 60_000 && h.hasIp && h.swaps > 0 && (h.httpRequests > 0 || h.uptimeMs >= 120_000);
      var tooLate := !proves && h.uptimeMs >= 180_000;
      && d.entries.Get(i).Live? && Names(d.entries.Get(i)) == run
      && (StateOf(d'.entries.Get(i)).Valid? && d'.images.Get(run).vouched <==> proves && fate.Done?)
      && (StateOf(d'.entries.Get(i)).Valid? <==> proves && fate.Done?)
      && (StateOf(d'.entries.Get(i)).Invalid? <==> tooLate && fate.Done?)
      && (d'.phase.Running? && d'.phase.confirmed <==> proves && fate.Done?)
      && (d'.phase.AbortZero? <==> tooLate || (proves && fate.Cut?))
      && (d' == d <==> (!proves && !tooLate) || (proves && fate.Refused?))
      && (fate.Refused? ==> d'.entries == d.entries)
      && (fate.Cut? && (proves || tooLate) ==> d'.entries.Get(i) == if fate.damage == LeftErased then Erased else Torn)
      && d'.entries.Get(Other(i)) == d.entries.Get(Other(i)) && d'.images.Get(Other(run)) == d.images.Get(Other(run))
  {
    hide Decide;
    InvRun(es);
    DecidesExactly(h);
    var d := Run(es).value;
    var k: SlotNo := if InvAt(d, 0) then 0 else 1;
    AnchoredCurrent(d, k);
  }

  /** An entry comes to say VALID, or keeps VALID under a new number, only by the confirmation of
      the running image's own trial, by the boot loader's first write, or by the hole. */
  lemma ValidOnlyByConfirm(es: seq<Event>, e: Event, i: SlotNo)
    requires Careful(es) && Run(es).Some? && Run(es + [e]).Some?
    requires var d, d' := Run(es).value, Run(es + [e]).value;
      d'.entries.Get(i) != d.entries.Get(i) && StateOf(d'.entries.Get(i)).Valid?
    ensures var d, d' := Run(es).value, Run(es + [e]).value;
      || (e.Tick? && e.h.uptimeMs >= 60_000 && e.h.hasIp && e.h.swaps > 0 &&
          (e.h.httpRequests > 0 || e.h.uptimeMs >= 120_000) && OnTrial(d.phase.kind) && Names(d'.entries.Get(i)) == d.phase.run &&
          d'.images.Get(d.phase.run).vouched)
      || (e == Boot(Done) && Untouched(d))
      || (e == Select(Done) && Hole(d'))
  {
    hide Run, Step, InvAt, Untouched, Hole;
    RunExtends(es, e);
    InvRun(es);
    var d := Run(es).value;
    if Untouched(d) {
      UntouchedWrites(d, e, i);
    } else {
      ValidStep(d, e, i, if InvAt(d, 0) then 0 else 1);
    }
  }

  lemma UntouchedWrites(d: Device, e: Event, i: SlotNo)
    requires Numbered(d.entries) && Untouched(d) && Enabled(d, e)
    requires Step(d, e).entries.Get(i) != d.entries.Get(i) && StateOf(Step(d, e).entries.Get(i)).Valid?
    ensures e == Boot(Done)
  {
  }

  lemma ValidStep(d: Device, e: Event, i: SlotNo, k: SlotNo)
    requires Numbered(d.entries) && InvAt(d, k) && Enabled(d, e)
    requires Step(d, e).entries.Get(i) != d.entries.Get(i) && StateOf(Step(d, e).entries.Get(i)).Valid?
    ensures var d' := Step(d, e);
      || (e.Tick? && Proves(e.h) && OnTrial(d.phase.kind) && Names(d'.entries.Get(i)) == d.phase.run
          && d'.images.Get(d.phase.run).vouched)
      || (e == Select(Done) && Hole(d'))
  {
    match e {
      case Select(_) => SelectionWrites(d, k);
      case Tick(h, fate) => DecidesExactly(h); TickWrites(d, h, fate, k);
      case Boot(fate) => BootWritesNoValid(d, fate, i);
      case _ =>
    }
  }

  lemma TickWrites(d: Device, h: Health, fate: Fate, k: SlotNo)
    requires Numbered(d.entries) && Enabled(d, Tick(h, fate)) && InvAt(d, k)
    ensures var d' := Step(d, Tick(h, fate));
      && d'.entries.Get(k) == d.entries.Get(k)
      && (StateOf(d'.entries.Get(Other(k))).Valid? ==>
            Decide(h).Confirm? && Names(d'.entries.Get(Other(k))) == d.phase.run && d'.images.Get(d.phase.run).vouched)
  {
    hide Names, CurrentEntry, NothingSelected, Readable, Numbered, Decide;
    AnchoredCurrent(d, k);
    StateIsNoName(d.entries.Get(Other(k)));
  }

  lemma BootWritesNoValid(d: Device, fate: Fate, i: SlotNo)
    requires Numbered(d.entries) && Enabled(d, Boot(fate)) && (d.entries.zero.Live? || d.entries.one.Live?)
    ensures var d' := Step(d, Boot(fate));
      d'.entries.Get(i) == d.entries.Get(i) || !StateOf(d'.entries.Get(i)).Valid?
  {
  }

  /** The running image, on its undecided trial, is found healthy and its entry says so. */
  predicate Confirms(d: Device, e: Event, i: SlotNo)
    requires Numbered(d.entries)
  {
    && Enabled(d, e) && e.Tick? && d.phase.run == i
    && Proves(e.h) && SetState(d.entries, Valid).Ok? && e.fate.Done?
  }

  /** No sector of slot `i` is rewritten from the `from`th event on. */
  ghost predicate NotStagedSince(es: seq<Event>, i: SlotNo, from: nat) {
    forall j :: from <= j < |es| && es[j].Stage? && Run(es[..j]).Some? && Run(es[..j]).value.phase.Running? ==>
      Run(es[..j]).value.phase.run == i
  }

  ghost predicate VouchedAt(es: seq<Event>, i: SlotNo, k: nat) {
    && k < |es| && Run(es[..k]).Some? && Confirms(Run(es[..k]).value, es[k], i)
    && NotStagedSince(es, i, k + 1)
  }

  /** This event rewrites a sector of slot `i`. */
  predicate StagesOver(d: Device, e: Event, i: SlotNo) {
    e.Stage? && d.phase.Running? && d.phase.run != i
  }

  lemma NotStagedSoFar(es: seq<Event>, i: SlotNo, from: nat)
    requires Run(es).Some? && es != [] && from < |es|
    ensures
      var n := |es| - 1;
      Run(es[..n]).Some?
      && (NotStagedSince(es, i, from) <==> NotStagedSince(es[..n], i, from) && !StagesOver(Run(es[..n]).value, es[n], i))
  {
    hide Run, Step, Enabled, Numbered;
    PrefixRuns(es);
    var n := |es| - 1;
    var before := es[..n];
    assert forall j :: 0 <= j <= n ==> before[..j] == es[..j];
    if NotStagedSince(es, i, from) {
      forall j | from <= j < n && before[j].Stage? && Run(before[..j]).Some? && Run(before[..j]).value.phase.Running?
        ensures Run(before[..j]).value.phase.run == i
      {
        assert before[..j] == es[..j] && before[j] == es[j];
      }
    }
    if NotStagedSince(before, i, from) && !StagesOver(Run(before).value, es[n], i) {
      forall j | from <= j <= n && es[j].Stage? && Run(es[..j]).Some? && Run(es[..j]).value.phase.Running?
        ensures Run(es[..j]).value.phase.run == i
      {
        assert before[..j] == es[..j] && (j < n ==> before[j] == es[j]);
      }
    }
  }

  lemma PrefixRuns(es: seq<Event>)
    requires Run(es).Some? && es != []
    ensures Run(es[..|es| - 1]).Some?
  {
    hide Step, Enabled, Numbered;
  }

  lemma VouchedSoFar(es: seq<Event>, i: SlotNo, k: nat)
    requires Run(es).Some? && es != [] && k < |es|
    ensures
      var n := |es| - 1;
      && Run(es[..n]).Some?
      && VouchedAt(es, i, k) ==
           if k == n then Confirms(Run(es[..n]).value, es[n], i)
           else VouchedAt(es[..n], i, k) && !StagesOver(Run(es[..n]).value, es[n], i)
  {
    hide Confirms, Numbered, Step, Enabled;
    var n := |es| - 1;
    if k < n {
      hide NotStagedSince;
      NotStagedSoFar(es, i, k + 1);
      assert es[..n][..k] == es[..k] && es[..n][k] == es[k];
    }
  }

  /** An image is vouched for exactly when it is the one put there over serial, or confirmed itself on its own
      undecided trial, and has not been staged over since. */
  lemma {:induction false} VouchedExactlyWhen(es: seq<Event>, i: SlotNo)
    requires Run(es).Some?
    ensures
      Run(es).value.images.Get(i).vouched
      <==> (i == 0 && NotStagedSince(es, i, 0)) || exists k :: VouchedAt(es, i, k)
  {
    hide Numbered, Step, Enabled, Confirms, VouchedAt, StagesOver, NotStagedSince;
    if es == [] {
      NothingHasHappened(i);
    } else {
      var n := |es| - 1;
      var before, d, e := es[..n], Run(es[..n]).value, es[n];
      VouchedExactlyWhen(before, i);
      StepVouches(d, e, i);
      NotStagedSoFar(es, i, 0);
      forall k: nat | k < |es| ensures VouchedAt(es, i, k) ==
        if k == n then Confirms(d, e, i) else VouchedAt(before, i, k) && !StagesOver(d, e, i)
      {
        VouchedSoFar(es, i, k);
      }
      assert VouchedAt(es, i, n) == Confirms(d, e, i);
      if k :| VouchedAt(es, i, k) {
        VouchedInRange(es, i, k);
      }
      if k :| VouchedAt(before, i, k) {
        VouchedInRange(before, i, k);
        assert VouchedAt(es, i, k) <==> !StagesOver(d, e, i);
      }
    }
  }

  lemma NothingHasHappened(i: SlotNo)
    ensures NotStagedSince([], i, 0) && forall k :: !VouchedAt([], i, k)
  {
  }

  lemma VouchedInRange(es: seq<Event>, i: SlotNo, k: nat)
    ensures VouchedAt(es, i, k) ==> k < |es|
  {
  }

  lemma StepVouches(d: Device, e: Event, i: SlotNo)
    requires Numbered(d.entries) && Enabled(d, e)
    ensures
      Step(d, e).images.Get(i).vouched
      <==> Confirms(d, e, i) || (d.images.Get(i).vouched && !StagesOver(d, e, i))
  {
    hide AbortStep, MarkStep, HandOverStep, NoteStep, SelectStep, MarkNewStep, Decide, SetState, Numbered;
    if e.Boot? || e.Note? || e.Select? || e.MarkNew? {
      WritesKeepImages(d, e);
    } else if e.Tick? {
      DecidesExactly(e.h);
    }
  }

  lemma WritesKeepImages(d: Device, e: Event)
    requires Numbered(d.entries) && Enabled(d, e) && (e.Boot? || e.Note? || e.Select? || e.MarkNew?)
    ensures Step(d, e).images == d.images
  {
    hide Classify, Numbered;
  }

  // -------------------------------------------------------------------------
  // Where a reset takes the device
  // -------------------------------------------------------------------------

  /** A reset, the boot loader's four steps and the classification, none of them interrupted. */
  function Reboot(d: Device): Device
    requires Numbered(d.entries)
    ensures Numbered(Reboot(d).entries)
  {
    var d1 := AbortStep(Reset(d), 0, Done, AbortOne);
    var d2 := AbortStep(d1, 1, Done, MarkSelected);
    var d3 := HandOverStep(MarkStep(d2, Done), Done);
    if d3.phase.NoteBoot? then NoteStep(d3, d3.phase.run, Done) else d3
  }

  /** `Reboot` is the run it stands for. */
  lemma RebootIsARun(es: seq<Event>)
    requires Run(es).Some?
    ensures
      var boot := es + [PowerLoss] + [Boot(Done)] + [Boot(Done)] + [Boot(Done)] + [Boot(Done)] + [Note(Done)];
      Run(boot) == Some(Reboot(Run(es).value))
  {
    SomethingAlwaysBoots(es);
    var d := Run(es).value;
    var d1 := AbortStep(Reset(d), 0, Done, AbortOne);
    var d2 := AbortStep(d1, 1, Done, MarkSelected);
    var d3 := MarkStep(d2, Done);
    var d4 := HandOverStep(d3, Done);
    LoaderPhases(d);
    hide AbortStep, MarkStep, HandOverStep, NoteStep, Numbered;
    Extends(es, d, PowerLoss, Reset(d));
    var r := es + [PowerLoss];
    Extends(r, Reset(d), Boot(Done), d1);
    Extends(r + [Boot(Done)], d1, Boot(Done), d2);
    Extends(r + [Boot(Done)] + [Boot(Done)], d2, Boot(Done), d3);
    Extends(r + [Boot(Done)] + [Boot(Done)] + [Boot(Done)], d3, Boot(Done), d4);
    Extends(r + [Boot(Done)] + [Boot(Done)] + [Boot(Done)] + [Boot(Done)], d4, Note(Done), Reboot(d));
  }

  lemma LoaderPhases(d: Device)
    requires Numbered(d.entries) && (d.images.zero.bootable || d.images.one.bootable)
    ensures
      var d1 := AbortStep(Reset(d), 0, Done, AbortOne);
      var d2 := AbortStep(d1, 1, Done, MarkSelected);
      var d3 := MarkStep(d2, Done);
      && d1.phase == AbortOne && d2.phase == MarkSelected && d3.phase == HandOver
      && Numbered(d1.entries) && Numbered(d2.entries) && Numbered(d3.entries)
      && HandOverStep(d3, Done).phase.NoteBoot? && Numbered(HandOverStep(d3, Done).entries)
  {
  }

  lemma Extends(es: seq<Event>, d: Device, e: Event, d': Device)
    requires Run(es) == Some(d) && Enabled(d, e) && Step(d, e) == d' && Numbered(d'.entries)
    ensures Run(es + [e]) == Some(d')
  {
    RunExtends(es, e);
  }

  /** What the boot loader makes of the entry that is not the anchor. */
  function Settle(o: Entry): Entry {
    if o.Live? && o.state.PendingVerify? then o.(state := Aborted)
    else if o.Live? && o.state.New? then o.(state := PendingVerify)
    else o
  }

  /** The boot loader prefers the other entry's slot. */
  predicate Chosen(d: Device, k: SlotNo)
    requires d.entries.Get(k).Live?
  {
    var a, o := d.entries.Get(k), Settle(d.entries.Get(Other(k)));
    o.Live? && o.seqNo > a.seqNo && !o.state.Aborted? && !o.state.Invalid? && d.images.Get(Other(Names(a))).bootable
  }

  /** What the boot loader's choice rests on; the other entry may even be newer and VALID. */
  predicate Paired(d: Device, k: SlotNo) {
    var a, o := d.entries.Get(k), d.entries.Get(Other(k));
    && a.Live? && a.state.Valid? && d.images.Get(Names(a)).bootable
    && (o.Live? ==> (o.seqNo + 1 == a.seqNo && o.state.Valid?) || o.seqNo == a.seqNo + 1)
  }

  lemma LoaderWrites(d: Device, k: SlotNo)
    requires Numbered(d.entries) && Paired(d, k)
    ensures
      var d2 := AbortStep(AbortStep(Reset(d), 0, Done, AbortOne), 1, Done, MarkSelected);
      var o := d.entries.Get(Other(k));
      MarkStep(d2, Done) == Device(d.entries.Put(Other(k), Settle(o)), d.images, HandOver)
  {
  }

  lemma LoaderRuns(d: Device, k: SlotNo)
    requires Numbered(d.entries) && Paired(d, k)
    ensures
      var d3 := Device(d.entries.Put(Other(k), Settle(d.entries.Get(Other(k)))), d.images, HandOver);
      var run := if Chosen(d, k) then Other(Home(d, k)) else Home(d, k);
      HandOverStep(d3, Done) == d3.(phase := NoteBoot(run))
  {
  }

  function ClassAfter(d: Device, k: SlotNo): Class
    requires d.entries.Get(k).Live?
  {
    var a, o := d.entries.Get(k), Settle(d.entries.Get(Other(k)));
    if o.Torn? then Unclassified
    else if Chosen(d, k) then (if o.state.Valid? then Settled else Trial)
    else if o.Live? && o.seqNo > a.seqNo
    then Reverted(if o.state.Aborted? then ByReset else if o.state.Invalid? then Deadline else Rejected)
    else Settled
  }

  function EntriesAfter(d: Device, k: SlotNo): Entries
    requires d.entries.Get(k).Live?
  {
    var o := Settle(d.entries.Get(Other(k)));
    d.entries.Put(Other(k), if Chosen(d, k) && o.state.Undefined? then o.(state := PendingVerify) else o)
  }

  /** The whole of a reset, from any device that has an anchor. */
  lemma RebootOutcome(d: Device, k: SlotNo)
    requires Numbered(d.entries) && Paired(d, k)
    ensures Reboot(d) == Device(EntriesAfter(d, k), d.images,
      Running(if Chosen(d, k) then Other(Home(d, k)) else Home(d, k), ClassAfter(d, k),
              false, false, false, false, true))
  {
    LoaderWrites(d, k);
    LoaderRuns(d, k);
    var d4 := HandOverStep(Device(d.entries.Put(Other(k), Settle(d.entries.Get(Other(k)))), d.images, HandOver), Done);
    NoteAfterLoader(d, k, d4);
  }

  lemma NoteAfterLoader(d: Device, k: SlotNo, d4: Device)
    requires Numbered(d.entries) && Paired(d, k)
    requires d4.entries == d.entries.Put(Other(k), Settle(d.entries.Get(Other(k)))) && d4.images == d.images
    requires d4.phase == NoteBoot(if Chosen(d, k) then Other(Home(d, k)) else Home(d, k))
    ensures NoteStep(d4, d4.phase.run, Done) == Device(EntriesAfter(d, k), d.images,
      Running(d4.phase.run, ClassAfter(d, k), false, false, false, false, true))
  {
    var a, o := d4.entries.Get(k), d4.entries.Get(Other(k));
    if o.Live? && o.seqNo > a.seqNo {
      assert CurrentEntry(d4.entries) == Other(k);
    } else if !o.Torn? {
      assert CurrentEntry(d4.entries) == k;
    }
  }

  /** Slot `run` running, and nothing else going on. */
  function Up(run: SlotNo, kind: Class, confirmed: bool): Phase {
    Running(run, kind, confirmed, false, false, false, true)
  }

  /** A trial that resets before it confirms - a panic, a watchdog, a power cut - is followed by
      the previous image, which knows why. */
  lemma TrialThatResetsIsRolledBack(es: seq<Event>)
    requires Careful(es) && Run(es).Some?
    requires var d := Run(es).value;
      d.phase.Running? && !d.images.Get(d.phase.run).vouched
    requires StateOf(Run(es).value.entries.Get(CurrentEntry(Run(es).value.entries))).PendingVerify?
    ensures var d, d' := Run(es).value, Reboot(Run(es).value);
      && d'.phase.Running? && d'.phase.run == Other(d.phase.run)
      && d'.phase.kind == Reverted(ByReset)
      && d'.images == d.images && d'.images.Get(d'.phase.run).vouched
  {
    hide Reboot;
    InvRun(es);
    var d := Run(es).value;
    var k: SlotNo := if InvAt(d, 0) then 0 else 1;
    RebootOutcome(d, k);
  }

  /** The device after a turn of the trial task and then a reset. */
  function TickedAndReset(d: Device, h: Health, fate: Fate): (r: Device)
    requires Numbered(d.entries) && Enabled(d, Tick(h, fate))
    ensures Numbered(r.entries)
  {
    hide Decide;
    Reboot(Step(d, Tick(h, fate)))
  }

  lemma LateTickRollsBack(d: Device, h: Health, fate: Fate, k: SlotNo)
    requires Numbered(d.entries) && InvAt(d, k) && Enabled(d, Tick(h, fate))
    requires h.uptimeMs >= 180_000 && !(h.hasIp && h.swaps > 0)
    requires Pending(d) || !d.images.Get(d.phase.run).vouched
    ensures
      var d' := TickedAndReset(d, h, fate);
      && d'.phase.Running? && d'.images == d.images && d.images.Get(Other(d.phase.run)).vouched
      && (d'.phase.run == Other(d.phase.run) <==> Pending(d) || !fate.Refused?)
      && (fate.Done? ==> d'.phase.kind == Reverted(Deadline))
      && (!Pending(d) && fate.Refused? ==> d'.phase == Up(d.phase.run, Trial, false) && Pending(d'))
  {
    hide Reboot;
    TickKeeps(d, h, fate, k);
    RebootOutcome(Step(d, Tick(h, fate)), k);
  }

  /** A trial that reaches its deadline unhealthy puts the previous image back, whether or not its
      own last write worked. */
  lemma DeadlineRollsBack(es: seq<Event>, h: Health, fate: Fate)
    requires Careful(es) && Run(es).Some? && Enabled(Run(es).value, Tick(h, fate))
    requires h.uptimeMs >= 180_000 && !(h.hasIp && h.swaps > 0)
    requires StateOf(Run(es).value.entries.Get(CurrentEntry(Run(es).value.entries))).PendingVerify?
    ensures var d, d' := Run(es).value, TickedAndReset(Run(es).value, h, fate);
      && d'.phase.Running? && d'.phase.run == Other(d.phase.run)
      && (fate.Done? ==> d'.phase.kind == Reverted(Deadline))
      && d'.images == d.images && d'.images.Get(d'.phase.run).vouched
  {
    hide TickedAndReset, Run;
    InvRun(es);
    var d := Run(es).value;
    var k: SlotNo := if InvAt(d, 0) then 0 else 1;
    LateTickRollsBack(d, h, fate, k);
  }

  /** The current entry says that its image is on a trial that has not been decided. */
  predicate Pending(d: Device) {
    StateOf(d.entries.Get(CurrentEntry(d.entries))).PendingVerify?
  }

  /** An image nobody vouches for is left behind by a reset exactly when its entry says it is on trial. If that
      could not be written, the next boot runs the same image again, and then puts it on trial. */
  lemma UnprovenIsLeftExactlyWhenPending(es: seq<Event>)
    requires Careful(es) && Run(es).Some?
    requires var d := Run(es).value;
      d.phase.Running? && !d.images.Get(d.phase.run).vouched
    ensures var d, d' := Run(es).value, Reboot(Run(es).value);
      && d'.phase.Running? && d'.images == d.images
      && (d'.phase.run == Other(d.phase.run) <==> Pending(d))
      && (!Pending(d) ==> d'.phase == Up(d.phase.run, Trial, false) && Pending(d'))
  {
    hide Reboot;
    InvRun(es);
    var d := Run(es).value;
    var k: SlotNo := if InvAt(d, 0) then 0 else 1;
    RebootOutcome(d, k);
  }

  /** The same at the deadline: the previous image comes back unless the entry does not say so and the write that
      would give the image up is refused as well. */
  lemma DeadlineRollsBackExactlyWhen(es: seq<Event>, h: Health, fate: Fate)
    requires Careful(es) && Run(es).Some? && Enabled(Run(es).value, Tick(h, fate))
    requires h.uptimeMs >= 180_000 && !(h.hasIp && h.swaps > 0)
    requires var d := Run(es).value;
      !d.images.Get(d.phase.run).vouched
    ensures var d, d' := Run(es).value, TickedAndReset(Run(es).value, h, fate);
      && d'.phase.Running? && d'.images == d.images
      && (d'.phase.run == Other(d.phase.run) <==> Pending(d) || !fate.Refused?)
      && (!Pending(d) && fate.Refused? ==> d'.phase == Up(d.phase.run, Trial, false) && Pending(d'))
  {
    hide TickedAndReset, Run, Pending;
    InvRun(es);
    var d := Run(es).value;
    var k: SlotNo := if InvAt(d, 0) then 0 else 1;
    LateTickRollsBack(d, h, fate, k);
  }

  lemma ActivatedBy(d: Device, k: SlotNo, selected: Device, marked: Device)
    requires InvAt(d, k) && Numbered(d.entries) && Readable(d.entries) && Enabled(d, Select(Done))
    requires selected == Step(d, Select(Done)) && Numbered(selected.entries) && Enabled(selected, MarkNew(Done))
    requires marked == Step(selected, MarkNew(Done)) && Numbered(marked.entries)
    requires d.images.Get(Other(d.phase.run)).bootable
    ensures
      && Reboot(marked).phase == Up(Other(d.phase.run), Trial, false)
      && Reboot(marked).images == d.images
  {
    hide Reboot, CurrentEntry, Names;
    SelectionWrites(d, k);
    SelectKeeps(d, Done, k);
    AnchoredCurrent(selected, k);
    StateIsNoName(selected.entries.Get(Other(k)));
    MarkNewKeeps(selected, Done, k);
    RebootOutcome(marked, k);
  }

  /** An activation whose two writes land boots the staged image on trial. */
  lemma ActivationBootsOnTrial(es: seq<Event>, selected: Device, marked: Device)
    requires Careful(es) && Run(es).Some? && Readable(Run(es).value.entries)
    requires Run(es + [Select(Done)]) == Some(selected)
    requires Run(es + [Select(Done)] + [MarkNew(Done)]) == Some(marked)
    requires Run(es).value.images.Get(Other(Run(es).value.phase.run)).bootable
    ensures var d, trial := Run(es).value, Reboot(marked);
      && trial.phase == Up(Other(d.phase.run), Trial, false)
      && trial.images == d.images
  {
    hide Reboot, Run, Careful, Step, InvAt;
    RunExtends(es, Select(Done));
    RunExtends(es + [Select(Done)], MarkNew(Done));
    InvRun(es);
    var d := Run(es).value;
    var k: SlotNo := if InvAt(d, 0) then 0 else 1;
    ActivatedBy(d, k, selected, marked);
  }

  /** A trial that confirms is what every later boot runs, settled and vouched for. */
  lemma ConfirmedStays(es: seq<Event>, h: Health, d': Device)
    requires Careful(es) && Run(es).Some? && Proves(h)
    requires Run(es + [Tick(h, Done)]) == Some(d')
    ensures var d, later := Run(es).value, Reboot(d');
      && later.phase == Up(d.phase.run, Settled, false)
      && later.images.Get(d.phase.run) == Image(true, true)
      && later.entries == d'.entries
  {
    hide Reboot;
    RunExtends(es, Tick(h, Done));
    InvRun(es);
    var d := Run(es).value;
    var k: SlotNo := if InvAt(d, 0) then 0 else 1;
    TickKeeps(d, h, Done, k);
    RebootOutcome(d', Other(k));
  }

  // -------------------------------------------------------------------------
  // The hole: exactly when an interrupted activation makes an unproven image permanent
  // -------------------------------------------------------------------------

  /** An activation is in the hole after its first write exactly when that write was needed and
      the entry it landed on was live - which it is from the second confirmed update on. */
  lemma HoleExactlyWhen(es: seq<Event>)
    requires Careful(es) && Run(es).Some? && Run(es + [Select(Done)]).Some?
    requires Run(es + [Select(Done)]).value.phase.midway
    ensures var d := Run(es).value;
      Hole(Run(es + [Select(Done)]).value) <==>
        d.entries.zero.Live? && d.entries.one.Live? && CurrentApp(d.entries) == Ok(Some(d.phase.run))
  {
    RunExtends(es, Select(Done));
    InvRun(es);
    var d := Run(es).value;
    var k: SlotNo := if InvAt(d, 0) then 0 else 1;
    SelectionWrites(d, k);
  }

  /** Power lost between the two writes: the next boot runs a proven image, or one on trial with
      a way back, exactly when the device was not in the hole. */
  lemma InterruptedActivation(es: seq<Event>)
    requires Careful(es) && Run(es).Some?
    requires var d := Run(es).value;
      d.phase.Running? && d.phase.midway && d.images.Get(Other(d.phase.run)) == Image(true, false)
    ensures Proven(Reboot(Run(es).value)) <==> !Hole(Run(es).value)
  {
    hide Reboot;
    InvRun(es);
    var d := Run(es).value;
    var k: SlotNo := if InvAt(d, 0) then 0 else 1;
    RebootOutcome(d, k);
  }

  /** And in the hole it is permanent: the image nobody vouched for is settled, and however often
      it crashes, every reset boots it again. */
  lemma HoleIsPermanent(es: seq<Event>)
    requires Careful(es) && Run(es).Some? && Hole(Run(es).value)
    requires var d := Run(es).value; d.images.Get(Other(d.phase.run)) == Image(true, false)
    ensures
      var d, d' := Run(es).value, Reboot(Run(es).value);
      && d'.phase.Running? && d'.phase.run == Other(d.phase.run) && d'.phase.kind.Settled?
      && !d'.images.Get(d'.phase.run).vouched
      && Reboot(d') == d'
  {
    hide Reboot;
    InvRun(es);
    var d := Run(es).value;
    var k: SlotNo := if InvAt(d, 0) then 0 else 1;
    RebootOutcome(d, k);
    RebootOutcome(Reboot(d), k);
  }

  // -------------------------------------------------------------------------
  // The hole is reached by two ordinary updates
  // -------------------------------------------------------------------------

  /** One more event of a careful run. */
  lemma Goes(es: seq<Event>, d: Device, e: Event, d': Device) returns (longer: seq<Event>)
    requires Run(es) == Some(d) && Careful(es) && !Slips(d, e)
    requires Enabled(d, e) && Step(d, e) == d' && Numbered(d'.entries)
    ensures Run(longer) == Some(d') && Careful(longer)
  {
    RunExtends(es, e);
    longer := es + [e];
    assert longer[..|longer| - 1] == es;
  }

  /** An undisturbed reset. */
  lemma GoesThroughReset(es: seq<Event>, d: Device, k: SlotNo) returns (longer: seq<Event>)
    requires Run(es) == Some(d) && Careful(es) && d.phase.AbortZero? && Paired(d, k)
    ensures Run(longer) == Some(Reboot(d)) && Careful(longer)
  {
    var d1 := AbortStep(Reset(d), 0, Done, AbortOne);
    var d2 := AbortStep(d1, 1, Done, MarkSelected);
    var d3 := MarkStep(d2, Done);
    var d4 := HandOverStep(d3, Done);
    assert d.images.zero.bootable || d.images.one.bootable;
    LoaderPhases(d);
    assert Reset(d) == d;
    hide AbortStep, MarkStep, HandOverStep, NoteStep, Numbered;
    longer := Goes(es, d, Boot(Done), d1);
    longer := Goes(longer, d1, Boot(Done), d2);
    longer := Goes(longer, d2, Boot(Done), d3);
    longer := Goes(longer, d3, Boot(Done), d4);
    longer := Goes(longer, d4, Note(Done), Reboot(d));
  }

  /** The first boot after a serial flash. */
  lemma FirstBoot() returns (es: seq<Event>, d: Device)
    ensures Run(es) == Some(d) && Careful(es)
    ensures d == Device(Entries(Live(1, Valid), Erased), Images(Image(true, true), Image(false, false)), NoteBoot(0))
  {
    hide NoteStep, SelectStep, MarkNewStep, TickStep, Classify;
    var f := Flashed();
    es := Goes([], f, Boot(Done), f.(phase := AbortOne));
    es := Goes(es, f.(phase := AbortOne), Boot(Done), f.(phase := MarkSelected));
    es := Goes(es, f.(phase := MarkSelected), Boot(Done), f.(phase := HandOver));
    d := f.(entries := Entries(Live(1, Valid), Erased), phase := NoteBoot(0));
    es := Goes(es, f.(phase := HandOver), Boot(Done), d);
  }

  /** After it, an image staged and accepted for activation. */
  lemma FirstImageStaged() returns (es: seq<Event>, d: Device)
    ensures Run(es) == Some(d) && Careful(es)
    ensures d == Device(Entries(Live(1, Valid), Erased), Images(Image(true, true), Image(true, false)),
                        Running(0, Settled, false, false, true, false, true))
  {
    hide AbortStep, MarkStep, HandOverStep, SelectStep, MarkNewStep, TickStep, Run, Careful;
    es, d := FirstBoot();
    es := Goes(es, d, Note(Done), d.(phase := Up(0, Settled, false)));
    d := d.(phase := Up(0, Settled, false));
    es, d := Stages(es, d);
  }

  /** An upload into the slot that is not running, accepted and to be activated. */
  lemma Stages(es: seq<Event>, d: Device) returns (longer: seq<Event>, d': Device)
    requires Run(es) == Some(d) && Careful(es) && d.phase.Running? && !d.phase.kind.Unclassified?
    requires d.phase == Up(d.phase.run, d.phase.kind, d.phase.confirmed)
    requires OnTrial(d.phase.kind) ==> d.phase.confirmed
    ensures Run(longer) == Some(d') && Careful(longer)
    ensures d' == Device(d.entries, d.images.Put(Other(d.phase.run), Image(true, false)), d.phase.(activating := true))
  {
    var u := d.(phase := d.phase.(uploading := true));
    longer := Goes(es, d, StartUpload(false), u);
    var s := u.(images := d.images.Put(Other(d.phase.run), Image(true, false)));
    longer := Goes(longer, u, Stage(true), s);
    d' := s.(phase := d.phase.(activating := true));
    longer := Goes(longer, s, Accept(true), d');
  }

  /** A run to such an image: the activation is cut between its writes, and the classification of the boot
      that follows cannot mark the entry. */
  lemma AnUnmarkedTrialRuns() returns (es: seq<Event>)
    ensures Run(es).Some? && Careful(es)
    ensures var d := Run(es).value;
      d.phase == Up(1, Unproven, false) && !d.images.Get(1).vouched && !Pending(d)
  {
    hide MarkNewStep, TickStep, Run, Careful;
    var d: Device;
    es, d := FirstImageStaged();
    var cut := d.(entries := Entries(Live(1, Valid), Live(2, Undefined)), phase := d.phase.(midway := true));
    es := Goes(es, d, Select(Done), cut);
    es := GoesToNoteBoot(es, cut);
    var unmarked := cut.(phase := NoteBoot(1));
    es := Goes(es, unmarked, Note(Refused), cut.(phase := Up(1, Unproven, false)));
  }

  lemma GoesToNoteBoot(es: seq<Event>, d: Device) returns (longer: seq<Event>)
    requires Run(es) == Some(d) && Careful(es) && !Hole(d)
    requires d.entries == Entries(Live(1, Valid), Live(2, Undefined)) && d.images.one.bootable
    ensures Run(longer) == Some(d.(phase := NoteBoot(1))) && Careful(longer)
  {
    hide NoteStep, SelectStep, MarkNewStep, TickStep, Classify, Run, Careful;
    longer := Goes(es, d, PowerLoss, d.(phase := AbortZero));
    longer := Goes(longer, d.(phase := AbortZero), Boot(Done), d.(phase := AbortOne));
    longer := Goes(longer, d.(phase := AbortOne), Boot(Done), d.(phase := MarkSelected));
    longer := Goes(longer, d.(phase := MarkSelected), Boot(Done), d.(phase := HandOver));
    longer := Goes(longer, d.(phase := HandOver), Boot(Done), d.(phase := NoteBoot(1)));
  }

  lemma FirstUpdateMarked() returns (es: seq<Event>, d: Device)
    ensures Run(es) == Some(d) && Careful(es)
    ensures d == Device(Entries(Live(1, Valid), Live(2, New)), Images(Image(true, true), Image(true, false)), AbortZero)
  {
    hide AbortStep, MarkStep, HandOverStep, NoteStep, TickStep, Classify;
    es, d := FirstImageStaged();
    var selected := d.(entries := Entries(Live(1, Valid), Live(2, Undefined)), phase := d.phase.(midway := true));
    es := Goes(es, d, Select(Done), selected);
    d := d.(entries := Entries(Live(1, Valid), Live(2, New)), phase := AbortZero);
    es := Goes(es, selected, MarkNew(Done), d);
  }

  lemma FirstUpdateOnTrial() returns (es: seq<Event>, d: Device)
    ensures Run(es) == Some(d) && Careful(es)
    ensures d == Device(Entries(Live(1, Valid), Live(2, PendingVerify)), Images(Image(true, true), Image(true, false)),
                        Up(1, Trial, false))
  {
    hide Reboot, Step, Run, Careful;
    es, d := FirstUpdateMarked();
    es := GoesThroughReset(es, d, 0);
    RebootOutcome(d, 0);
    d := Reboot(d);
  }

  lemma TwoUpdatesReachTheHole() returns (es: seq<Event>)
    ensures Run(es).Some? && Careful(es) && Hole(Run(es).value)
    ensures Run(es).value.images.Get(Other(Run(es).value.phase.run)) == Image(true, false)
  {
    hide AbortStep, MarkStep, HandOverStep, NoteStep, Classify;
    var d: Device;
    es, d := FirstUpdateOnTrial();
    var h := Health(CONFIRM_NOT_BEFORE_MS, true, 1, 1);
    var confirmed := Device(
      Entries(Live(1, Valid), Live(2, Valid)), Images(Image(true, true), Image(true, true)), Up(1, Trial, true));
    es := Goes(es, d, Tick(h, Done), confirmed);
    es, d := Stages(es, confirmed);
    es := Goes(es, d, Select(Done),
               d.(entries := Entries(Live(3, Valid), Live(2, Valid)), phase := d.phase.(midway := true)));
  }

  // -------------------------------------------------------------------------
  // A failed activation: the next accepted upload waits for a task that has gone
  // -------------------------------------------------------------------------

  /** The flash refuses this write of an activation, or `otadata` cannot be read for it. */
  predicate Fails(d: Device, e: Event)
    requires Numbered(d.entries) && Enabled(d, e)
  {
    match e
    case Select(fate) =>
      var w := SelectApp(d.entries, Other(d.phase.run));
      w.Err? || (w.value.Some? && fate.Refused?)
    case MarkNew(fate) => SetState(d.entries, New).Err? || fate.Refused?
    case _ => false
  }

  ghost predicate FailsAt(es: seq<Event>, k: nat) {
    && k < |es| && Run(es[..k]).Some? && Enabled(Run(es[..k]).value, es[k]) && Fails(Run(es[..k]).value, es[k])
    && forall j :: k < j < |es| ==> !es[j].Note?
  }

  /** A write of an activation has failed since the firmware last classified a boot. */
  ghost predicate HasFailed(es: seq<Event>) {
    exists k :: FailsAt(es, k)
  }

  lemma {:induction false} AliveExactlyWhen(es: seq<Event>)
    requires Run(es).Some? && Run(es).value.phase.Running?
    ensures Run(es).value.phase.alive <==> !HasFailed(es)
  {
    hide Numbered, Step, Enabled, Fails;
    if es != [] {
      var n := |es| - 1;
      var before, d, e := es[..n], Run(es[..n]).value, es[n];
      StepKeepsTask(d, e);
      if !e.Note? {
        AliveExactlyWhen(before);
        assert forall j :: 0 <= j <= n ==> before[..j] == es[..j];
        forall k: nat | k < n ensures FailsAt(es, k) <==> FailsAt(before, k) {
          assert es[k] == before[k];
        }
        assert FailsAt(es, n) <==> Fails(d, e);
        if k :| FailsAt(before, k) {
          assert FailsAt(es, k);
        }
        if k :| FailsAt(es, k) {
          assert k == n || FailsAt(before, k);
        }
      }
    }
  }

  lemma StepKeepsTask(d: Device, e: Event)
    requires Numbered(d.entries) && Enabled(d, e) && Step(d, e).phase.Running?
    ensures
      if e.Note? then Step(d, e).phase.alive
      else d.phase.Running? && (Step(d, e).phase.alive <==> d.phase.alive && !Fails(d, e))
    ensures e.Note? ==> !Fails(d, e)
  {
    hide Classify, Numbered;
  }

  /** An activation that has been asked for is still going to be served exactly when none has failed since the
      device came up. */
  lemma ServedExactlyWhen(es: seq<Event>)
    requires Run(es).Some?
    requires var p := Run(es).value.phase;
      p.Running? && p.activating && !p.midway
    ensures Enabled(Run(es).value, Select(Done)) <==> !HasFailed(es)
  {
    hide Run, HasFailed;
    AliveExactlyWhen(es);
  }

  /** An accepted image that was to be activated is asked for, and the request stands until its own writes or a reset
      have dealt with it; an upload can always be ended, and only its claim is given back. */
  lemma ARequestStands(es: seq<Event>, e: Event)
    requires Run(es).Some? && Run(es + [e]).Some? && Run(es).value.phase.Running?
    requires Run(es + [e]).value.phase.Running?
    ensures
      var d, d' := Run(es).value, Run(es + [e]).value;
      && (e == Accept(true) ==> d'.phase.activating)
      && (d.phase.activating && !e.Select? && !e.MarkNew? ==> d'.phase.activating)
      && (!d.phase.activating && d'.phase.activating ==> e == Accept(true))
      && (d.phase.uploading ==> Run(es + [EndUpload]) == Some(d.(phase := d.phase.(uploading := false))))
  {
    RunExtends(es, e);
    RunExtends(es, EndUpload);
  }

  /** The device stays up through each of these events, and no upload begins that was told before
      them that the slot was free. */
  predicate StaysUp(es: seq<Event>, more: seq<Event>) {
    && Run(es + more).Some? && Run(es + more).value.phase.Running?
    && (more != [] ==> Last(more) != StartUpload(true) && StaysUp(es, more[..|more| - 1]))
  }

  /** One that is not: every upload that asks is refused and nothing is activated until something resets the
      device. */
  lemma {:induction false} ActivationAfterAFailureHangs(es: seq<Event>, more: seq<Event>)
    requires Run(es).Some? && StaysUp(es, more) && HasFailed(es)
    requires var p := Run(es).value.phase;
      p.Running? && p.activating && !p.midway && !p.uploading
    ensures var d := Run(es + more).value;
      && d.phase.activating && !d.phase.alive && !d.phase.midway && !d.phase.uploading
      && !Enabled(d, StartUpload(false)) && !Enabled(d, Select(Done))
      && d.images.Get(Other(d.phase.run)) == Run(es).value.images.Get(Other(Run(es).value.phase.run))
      && d.phase.run == Run(es).value.phase.run
  {
    hide HasFailed, Run, Step, Enabled;
    if more == [] {
      assert es + more == es;
      AliveExactlyWhen(es);
      HungRefuses(Run(es).value);
    } else {
      var before := more[..|more| - 1];
      ActivationAfterAFailureHangs(es, before);
      assert es + more == (es + before) + [Last(more)];
      RunExtends(es + before, Last(more));
      HungStays(Run(es + before).value, Last(more));
      HungRefuses(Run(es + more).value);
    }
  }

  predicate Hung(d: Device) {
    d.phase.Running? && d.phase.activating && !d.phase.alive && !d.phase.midway && !d.phase.uploading
  }

  lemma HungRefuses(d: Device)
    requires Hung(d)
    ensures !Enabled(d, StartUpload(false)) && !Enabled(d, Select(Done))
  {
  }

  lemma HungStays(d: Device, e: Event)
    requires Numbered(d.entries) && Enabled(d, e) && Hung(d) && e != StartUpload(true) && Step(d, e).phase.Running?
    ensures Hung(Step(d, e)) && Step(d, e).phase.run == d.phase.run
    ensures Step(d, e).images.Get(Other(d.phase.run)) == d.images.Get(Other(d.phase.run))
  {
    hide AbortStep, MarkStep, HandOverStep, NoteStep, Decide, Numbered;
  }

  /** There is such a run: the first write of an activation is refused, the image is uploaded once more and
      accepted. */
  lemma ASecondActivationHangs() returns (es: seq<Event>)
    ensures Run(es).Some? && Careful(es) && HasFailed(es)
    ensures var p := Run(es).value.phase;
      p.Running? && p.activating && !p.midway && !p.uploading
  {
    var d: Device;
    es, d := FirstImageStaged();
    var failed := d.(phase := d.phase.(activating := false, alive := false));
    es := Goes(es, d, Select(Refused), failed);
    var up := failed.(phase := failed.phase.(uploading := true));
    es := Goes(es, failed, StartUpload(false), up);
    es := Goes(es, up, Accept(true), failed.(phase := failed.phase.(activating := true)));
    AliveExactlyWhen(es);
  }
}
