/** The firmware's own code around `otadata`, each call of it tied to the steps of the rollback machine. */
module OtaFirmware {
  import opened Common
  import opened Otadata
  import opened Rollback

  /** How a call that writes the flash comes back, if it does: `Lost` is a reset inside it. */
  datatype Outcome = Wrote | Failed | Lost

  function OutcomeOf(fate: Fate): Outcome {
    match fate
    case Done => Wrote
    case Refused => Failed
    case Cut(_) => Lost
  }

  /** The entries after a call that meant to make this write. */
  function Landed(d: Entries, w: Write, fate: Fate): Entries {
    match fate
    case Done => d.Put(w.at, w.entry)
    case Refused => d
    case Cut(g) => d.Put(w.at, Damaged(g))
  }

  class Firmware {
    var zero: Entry
    var one: Entry
    var images: Images
    var phase: Phase

    function Data(): Entries
      reads this
    {
      Entries(zero, one)
    }

    function Now(): Device
      reads this
    {
      Device(Data(), images, phase)
    }

    constructor (d: Device)
      ensures Now() == d
    {
      zero, one, images, phase := d.entries.zero, d.entries.one, d.images, d.phase;
    }

    /** One erase and write of one entry's sector. */
    method WriteEntry(at: SlotNo, e: Entry, fate: Fate) returns (out: Outcome)
      modifies this`zero, this`one
      ensures Data() == Landed(old(Data()), Write(at, e), fate) && out == OutcomeOf(fate)
    {
      out := OutcomeOf(fate);
      if fate.Refused? {
        return;
      }
      var what := if fate.Done? then e else Damaged(fate.damage);
      if at == 0 {
        zero := what;
      } else {
        one := what;
      }
    }

    /** Which entry the flash crate takes for current: the one with the higher number. */
    method ReadCurrent() returns (at: Result<Option<SlotNo>, OtaError>)
      ensures at ==
        if !Readable(Data()) then Err(Unreadable)
        else if NothingSelected(Data()) then Ok(None)
        else Ok(Some(CurrentEntry(Data())))
      ensures at.Ok? && at.value.Some? ==> Data().Get(at.value.value).Live?
    {
      if zero.Torn? || one.Torn? {
        return Err(Unreadable);
      }
      var a, b := SeqOf(zero), SeqOf(one);
      if a == UNINITIALIZED && b == UNINITIALIZED {
        return Ok(None);
      }
      if a == UNINITIALIZED {
        return Ok(Some(1));
      }
      return Ok(Some(if b == UNINITIALIZED || a > b then 0 else 1));
    }

    /** `write_state`. */
    method WriteState(state: FwState, fate: Fate) returns (out: Outcome)
      modifies this`zero, this`one
      ensures SetState(old(Data()), state).Err? ==> Data() == old(Data()) && out == Failed
      ensures SetState(old(Data()), state).Ok? ==>
        Data() == Landed(old(Data()), SetState(old(Data()), state).value, fate) && out == OutcomeOf(fate)
    {
      hide CurrentEntry, NothingSelected, Readable, Landed, OutcomeOf;
      var current := ReadCurrent();
      if current.Err? || current.value.None? {
        return Failed;
      }
      var at := current.value.value;
      out := WriteEntry(at, Live(SeqOf(Data().Get(at)), state), fate);
    }

    /** The first half of `write_selection`: nothing to write if the slot is selected already. */
    method WriteSelected(app: SlotNo, fate: Fate) returns (out: Outcome)
      requires Numbered(Data())
      modifies this`zero, this`one
      ensures
        match SelectApp(old(Data()), app)
        case Err(_) => Data() == old(Data()) && out == Failed
        case Ok(None) => Data() == old(Data()) && out == Wrote
        case Ok(Some(w)) => Data() == Landed(old(Data()), w, fate) && out == OutcomeOf(fate)
    {
      hide CurrentEntry, NothingSelected, Readable, Landed, OutcomeOf, Names;
      var current := ReadCurrent();
      if current.Err? {
        return Failed;
      }
      var at: SlotNo, top, inc := 0, 0, (app + 1) % 2;
      if current.value.Some? {
        at := current.value.value;
        top := SeqOf(Data().Get(at));
        var selected := Names(Data().Get(at));
        if selected == app {
          return Wrote;
        }
        inc := (app + 2 - selected) % 2;
      } else {
        FirstIsCurrent(Data());
      }
      var target: SlotNo := (at + 1) % 2;
      out := WriteEntry(target, Live(top + inc, StateOf(Data().Get(target))), fate);
    }

    /** `note_boot`: an image that is selected and was never marked goes on trial. */
    method NoteBoot(fate: Fate)
      requires phase.NoteBoot? && Numbered(Data())
      modifies this
      ensures Now() == Step(old(Now()), Note(fate))
    {
      hide ClassOf, SetState, Numbered;
      var run := phase.run;
      var kind := ClassOf(Data(), run);
      if kind.Unproven? {
        var out := WriteState(PendingVerify, fate);
        if out.Lost? {
          phase := AbortZero;
          return;
        }
        if out.Wrote? {
          kind := Trial;
        }
      }
      phase := Running(run, kind, false, false, false, false, true);
    }

    /** One turn of `trial_task`: confirm, revert or wait. */
    method TrialTick(h: Health, fate: Fate)
      requires phase.Running? && OnTrial(phase.kind) && !phase.confirmed && Numbered(Data())
      modifies this
      ensures Now() == Step(old(Now()), Tick(h, fate))
      ensures
        var proves := h.uptimeMs >= 60_000 && h.hasIp && h.swaps > 0 && (h.httpRequests > 0 || h.uptimeMs >= 120_000);
        var tooLate := !proves && h.uptimeMs >= 180_000;
        && (phase.Running? && phase.confirmed <==> proves && SetState(old(Data()), Valid).Ok? && fate.Done?)
        && (!proves && !tooLate ==> Now() == old(Now()))
        && (tooLate ==> phase == AbortZero)
    {
      hide SetState, Numbered;
      match Decide(h)
      case Wait =>
      case Confirm =>
        var out := WriteState(Valid, fate);
        if out.Lost? {
          phase := AbortZero;
        } else if out.Wrote? {
          var run := phase.run;
          images := images.Put(run, images.Get(run).(vouched := true));
          phase := phase.(confirmed := true);
        }
      case Revert =>
        var out := WriteState(Invalid, fate);
        phase := AbortZero;
    }

    /** `write_selection` and what `activate_task` does with its answer: select, then mark, then restart; a
        failure of either leaves the device running and the task gone. */
    method Activate(first: Fate, second: Fate)
      requires phase.Running? && phase.activating && phase.alive && !phase.midway && Numbered(Data())
      modifies this
      ensures
        var selected := Step(old(Now()), Select(first));
        Numbered(selected.entries) ==>
          Now() == if selected.phase.Running? && selected.phase.midway then Step(selected, MarkNew(second)) else selected
    {
      hide SetState, SelectApp, Numbered;
      var out := WriteSelected(Other(phase.run), first);
      if out.Lost? {
        phase := AbortZero;
        return;
      }
      if out.Failed? {
        phase := phase.(activating := false, alive := false);
        return;
      }
      phase := phase.(midway := true);
      out := WriteState(New, second);
      if out.Failed? {
        phase := phase.(activating := false, midway := false, alive := false);
      } else {
        phase := AbortZero;
      }
    }
  }

  lemma FirstIsCurrent(d: Entries)
    requires NothingSelected(d)
    ensures CurrentEntry(d) == 0
  {
  }
}
