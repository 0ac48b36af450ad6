/** Who may stage an upload, and what is put back when it ends.

    Any number of request handlers, each stopped between any two of its accesses to a shared flag, and
    each of them dropped by its server at any point where it waits. */
module UploadClaim {
  import opened Common

  const NO_PERCENT: int := 255

  /** Where a handler is in `Upload::start`, in the upload, or in its `Drop`.

      `Asked` is the wait between the refusal's checks and the claim. `was` is the dither setting to put
      back. */
  datatype Pc =
    | Idle
    | Asked
    | Claimed
    | Measured
    | Swapped(was: bool)
    | Holding(was: bool)
    | Unmarked(was: bool)
    | Undithered
    | Unmeasured

  /** `spoken` is what `slot_is_spoken_for` answers, `outside` the dither setting that everything but an
      upload has asked for. */
  datatype State = State(
    claim: bool, percent: int, dither: bool, inUpload: bool, spoken: bool, outside: bool, pcs: seq<Pc>)

  datatype Event =
    | Ask(who: nat)
    | Cancel(who: nat)
    | Exchange(who: nat)
    | NoRoom(who: nat)
    | Next(who: nat, declared: bool)
    | Percent(who: nat, pct: int)
    | End(who: nat)
    | Activate
    | ActivateFails
    | Dither(on: bool)

  /** A handler past the compare-exchange that has not given the claim back. */
  predicate Owns(pc: Pc) {
    !pc.Idle? && !pc.Asked?
  }

  /** A handler that holds an `Upload`. */
  predicate Uploading(pc: Pc) {
    pc.Holding?
  }

  function Boot(n: nat, dither: bool): State {
    State(false, NO_PERCENT, dither, false, false, dither, seq(n, _ => Idle))
  }

  function Goto(s: State, i: nat, pc: Pc): State
    requires i < |s.pcs|
  {
    s.(pcs := s.pcs[i := pc])
  }

  /** The next step of a straight line of code. */
  function NextStep(s: State, i: nat, declared: bool): Option<State>
    requires i < |s.pcs|
  {
    match s.pcs[i]
    case Claimed => Some(Goto(s.(percent := if declared then 0 else NO_PERCENT), i, Measured))
    case Measured => Some(Goto(s.(dither := false), i, Swapped(s.dither)))
    case Swapped(was) => Some(Goto(s.(inUpload := true), i, Holding(was)))
    case Unmarked(was) => Some(Goto(s.(dither := was), i, Undithered))
    case Undithered => Some(Goto(s.(percent := NO_PERCENT), i, Unmeasured))
    case Unmeasured => Some(Goto(s.(claim := false), i, Idle))
    case _ => None
  }

  function Step(s: State, e: Event): Option<State> {
    match e
    case Ask(i) =>
      if i < |s.pcs| && s.pcs[i].Idle? then Some(if s.spoken then s else Goto(s, i, Asked)) else None
    case Cancel(i) => if i < |s.pcs| && s.pcs[i].Asked? then Some(Goto(s, i, Idle)) else None
    case Exchange(i) =>
      if i < |s.pcs| && s.pcs[i].Asked?
      then Some(if s.claim then Goto(s, i, Idle) else Goto(s.(claim := true), i, Claimed))
      else None
    case NoRoom(i) => if i < |s.pcs| && s.pcs[i].Claimed? then Some(Goto(s.(claim := false), i, Idle)) else None
    case Next(i, declared) => if i < |s.pcs| then NextStep(s, i, declared) else None
    case Percent(i, pct) =>
      if i < |s.pcs| && s.pcs[i].Holding? && 0 <= pct <= 100 then Some(s.(percent := pct)) else None
    case End(i) =>
      if i < |s.pcs| && s.pcs[i].Holding? then Some(Goto(s.(inUpload := false), i, Unmarked(s.pcs[i].was))) else None
    case Activate => Some(s.(spoken := true))
    case ActivateFails => Some(s.(spoken := false))
    case Dither(on) =>
      Some(s.(dither := on, outside := if Borrowed(s) then s.outside else on))
  }

  /** Some handler has taken the dither setting and not put it back. */
  predicate Borrowed(s: State) {
    exists i :: 0 <= i < |s.pcs| && (s.pcs[i].Swapped? || s.pcs[i].Holding? || s.pcs[i].Unmarked?)
  }

  function Run(n: nat, dither: bool, es: seq<Event>): Option<State> {
    if es == [] then Some(Boot(n, dither))
    else
      var s := Run(n, dither, es[..|es| - 1]);
      if s.None? then None else Step(s.value, Last(es))
  }

  // -------------------------------------------------------------------------
  // The invariant
  // -------------------------------------------------------------------------

  /** What the flags are while a handler is here. */
  predicate Fits(s: State, pc: Pc) {
    match pc
    case Idle => true
    case Asked => true
    case Claimed => s.percent == NO_PERCENT && s.dither == s.outside && !s.inUpload
    case Measured => s.dither == s.outside && !s.inUpload
    case Swapped(was) => was == s.outside && !s.inUpload
    case Holding(was) => was == s.outside && s.inUpload
    case Unmarked(was) => was == s.outside && !s.inUpload
    case Undithered => s.dither == s.outside && !s.inUpload
    case Unmeasured => s.percent == NO_PERCENT && s.dither == s.outside && !s.inUpload
  }

  predicate Owner(s: State, i: nat) {
    i < |s.pcs| && Owns(s.pcs[i])
  }

  ghost predicate Inv(s: State) {
    && (forall i: nat :: i < |s.pcs| ==> Fits(s, s.pcs[i]))
    && (forall i: nat, j: nat :: Owner(s, i) && Owner(s, j) ==> i == j)
    && (s.claim <==> exists i: nat :: Owner(s, i))
    && (!s.claim ==> s.percent == NO_PERCENT && s.dither == s.outside && !s.inUpload)
  }

  /** What a step of the one owner has to keep. */
  lemma OwnerMoves(s: State, t: State, i: nat, pc: Pc)
    requires Inv(s) && Owner(s, i) && t.pcs == s.pcs[i := pc] && t.spoken == s.spoken && Fits(t, pc)
    requires Owns(pc) == t.claim
    requires !t.claim ==> t.percent == NO_PERCENT && t.dither == t.outside && !t.inUpload
    ensures Inv(t)
  {
    forall j: nat | j < |t.pcs| ensures Fits(t, t.pcs[j]) {
      assert Fits(s, s.pcs[j]);
      assert j != i ==> !Owner(s, j);
    }
    forall j: nat, k: nat | Owner(t, j) && Owner(t, k) ensures j == k {
      assert j != i ==> Owner(s, j);
      assert k != i ==> Owner(s, k);
    }
    assert t.claim ==> Owner(t, i);
    assert forall j: nat :: j != i ==> !Owner(t, j) by {
      forall j: nat | j != i ensures !Owner(t, j) {
        assert Owner(t, j) ==> Owner(s, j);
      }
    }
  }

  lemma OwnersKeepInv(s: State, e: Event)
    requires Inv(s) && (e.NoRoom? || e.Next? || e.Percent? || e.End?) && Step(s, e).Some?
    ensures Inv(Step(s, e).value)
  {
    var t := Step(s, e).value;
    assert Owner(s, e.who);
    assert Fits(s, s.pcs[e.who]);
    OwnerMoves(s, t, e.who, t.pcs[e.who]) by {
      assert t.pcs == s.pcs[e.who := t.pcs[e.who]];
    }
  }

  lemma OthersKeepInv(s: State, e: Event)
    requires Inv(s) && (e.Ask? || e.Cancel? || (e.Exchange? && s.claim)) && Step(s, e).Some?
    ensures Inv(Step(s, e).value)
  {
    var t := Step(s, e).value;
    assert forall j: nat :: Owner(t, j) <==> Owner(s, j);
    assert forall j: nat :: j < |s.pcs| ==> Fits(s, s.pcs[j]) && (j != e.who ==> t.pcs[j] == s.pcs[j]);
  }

  lemma ClaimKeepsInv(s: State, i: nat)
    requires Inv(s) && !s.claim && Step(s, Exchange(i)).Some?
    ensures Inv(Step(s, Exchange(i)).value)
  {
    var t := Step(s, Exchange(i)).value;
    assert forall j: nat :: !Owner(s, j);
    assert forall j: nat :: j != i ==> (Owner(t, j) <==> Owner(s, j));
    assert Owner(t, i);
    assert forall j: nat :: j < |s.pcs| ==> Fits(s, s.pcs[j]) && (j != i ==> t.pcs[j] == s.pcs[j]);
  }

  lemma ActivationKeepsInv(s: State, e: Event)
    requires Inv(s) && (e.Activate? || e.ActivateFails?)
    ensures Inv(Step(s, e).value)
  {
    var t := Step(s, e).value;
    assert forall j: nat :: Owner(t, j) <==> Owner(s, j);
    assert forall j: nat :: j < |t.pcs| ==> Fits(s, s.pcs[j]);
  }

  lemma DitherKeepsInv(s: State, on: bool)
    requires Inv(s)
    ensures Inv(Step(s, Dither(on)).value)
  {
    var t := Step(s, Dither(on)).value;
    assert forall j: nat :: Owner(t, j) <==> Owner(s, j);
    forall j: nat | j < |t.pcs| ensures Fits(t, t.pcs[j]) {
      assert Fits(s, s.pcs[j]);
      if Borrowed(s) && Owner(s, j) {
        var k :| 0 <= k < |s.pcs| && (s.pcs[k].Swapped? || s.pcs[k].Holding? || s.pcs[k].Unmarked?);
        assert Owner(s, k);
      }
    }
    if Borrowed(s) {
      var k :| 0 <= k < |s.pcs| && (s.pcs[k].Swapped? || s.pcs[k].Holding? || s.pcs[k].Unmarked?);
      assert Owner(s, k);
    }
  }

  lemma {:induction false} InvRun(n: nat, dither: bool, es: seq<Event>)
    requires Run(n, dither, es).Some?
    ensures Inv(Run(n, dither, es).value) && |Run(n, dither, es).value.pcs| == n
  {
    hide Inv, Step;
    if es == [] {
      BootInv(n, dither);
    } else {
      var s := Run(n, dither, es[..|es| - 1]).value;
      InvRun(n, dither, es[..|es| - 1]);
      StepKeepsInv(s, Last(es));
    }
  }

  lemma StepKeepsInv(s: State, e: Event)
    requires Inv(s) && Step(s, e).Some?
    ensures Inv(Step(s, e).value) && |Step(s, e).value.pcs| == |s.pcs|
  {
    hide Inv, NextStep;
    match e
    case Ask(_) => OthersKeepInv(s, e);
    case Cancel(_) => OthersKeepInv(s, e);
    case Exchange(i) => if s.claim { OthersKeepInv(s, e); } else { ClaimKeepsInv(s, i); }
    case NoRoom(_) => OwnersKeepInv(s, e);
    case Next(_, _) => OwnersKeepInv(s, e); NextKeepsCount(s, e.who, e.declared);
    case Percent(_, _) => OwnersKeepInv(s, e);
    case End(_) => OwnersKeepInv(s, e);
    case Activate => ActivationKeepsInv(s, e);
    case ActivateFails => ActivationKeepsInv(s, e);
    case Dither(on) => DitherKeepsInv(s, on);
  }

  lemma NextKeepsCount(s: State, i: nat, declared: bool)
    requires i < |s.pcs| && NextStep(s, i, declared).Some?
    ensures |NextStep(s, i, declared).value.pcs| == |s.pcs|
  {
  }

  lemma BootInv(n: nat, dither: bool)
    ensures Inv(Boot(n, dither))
  {
  }

  // -------------------------------------------------------------------------
  // What holds in every run
  // -------------------------------------------------------------------------

  /** The claim is set exactly while one handler is past the compare-exchange and has not given it back,
      and there is never a second. */
  lemma ClaimIsExclusive(n: nat, dither: bool, es: seq<Event>)
    requires Run(n, dither, es).Some?
    ensures
      var s := Run(n, dither, es).value;
      && (s.claim <==> exists i: nat :: i < |s.pcs| && Owns(s.pcs[i]))
      && forall i: nat, j: nat :: i < |s.pcs| && j < |s.pcs| && Owns(s.pcs[i]) && Owns(s.pcs[j]) ==> i == j
  {
    hide Run;
    InvRun(n, dither, es);
    var s := Run(n, dither, es).value;
    assert forall i: nat :: i < |s.pcs| && Owns(s.pcs[i]) ==> Owner(s, i);
  }

  /** Whenever the claim is free, the percentage and the upload mark are idle and the dither setting is
      the one that was asked for outside any upload. */
  lemma EverythingIsPutBack(n: nat, dither: bool, es: seq<Event>)
    requires Run(n, dither, es).Some? && !Run(n, dither, es).value.claim
    ensures
      var s := Run(n, dither, es).value;
      s.percent == 255 && !s.inUpload && s.dither == s.outside
  {
    hide Run;
    InvRun(n, dither, es);
  }

  /** The mark that survives a reset is set exactly while there is an `Upload`. */
  lemma MarkedExactlyWhileUploading(n: nat, dither: bool, es: seq<Event>)
    requires Run(n, dither, es).Some?
    ensures
      var s := Run(n, dither, es).value;
      s.inUpload <==> exists i: nat :: i < |s.pcs| && Uploading(s.pcs[i])
  {
    hide Run;
    InvRun(n, dither, es);
    var s := Run(n, dither, es).value;
    if s.inUpload {
      var i: nat :| Owner(s, i);
      assert Fits(s, s.pcs[i]);
    }
    forall i: nat | i < |s.pcs| && Uploading(s.pcs[i]) ensures s.inUpload {
      assert Fits(s, s.pcs[i]);
    }
  }

  /** An activation has been requested that has not failed since, and after it handler `i` has not asked. */
  ghost predicate ActivatedSinceAsked(es: seq<Event>, i: nat) {
    exists k :: 0 <= k < |es| && es[k] == Activate && forall j :: k < j < |es| ==> es[j] != ActivateFails && es[j] != Ask(i)
  }

  lemma ActivatedSoFar(es: seq<Event>, i: nat)
    requires es != []
    ensures
      ActivatedSinceAsked(es, i)
      <==> Last(es) == Activate ||
           (Last(es) != ActivateFails && Last(es) != Ask(i) && ActivatedSinceAsked(es[..|es| - 1], i))
  {
    var n := |es| - 1;
    var before := es[..n];
    assert forall j :: 0 <= j < n ==> before[j] == es[j];
    if k :| 0 <= k < n && before[k] == Activate && forall j :: k < j < n ==> before[j] != ActivateFails && before[j] != Ask(i) {
      assert es[k] == Activate;
    }
    if k :| 0 <= k < n && es[k] == Activate && forall j :: k < j < |es| ==> es[j] != ActivateFails && es[j] != Ask(i) {
      assert before[k] == Activate;
    }
  }

  /** While a handler waits, the slot is spoken for exactly when that has come about since the handler asked. */
  lemma {:induction false} SpokenWhileWaiting(n: nat, dither: bool, es: seq<Event>, i: nat)
    requires Run(n, dither, es).Some? && i < |Run(n, dither, es).value.pcs|
    requires Run(n, dither, es).value.pcs[i].Asked?
    ensures Run(n, dither, es).value.spoken <==> ActivatedSinceAsked(es, i)
  {
    hide ActivatedSinceAsked;
    if es != [] {
      var before := es[..|es| - 1];
      var s := Run(n, dither, before).value;
      ActivatedSoFar(es, i);
      StartsToWait(s, Last(es), i);
      if Last(es) != Ask(i) {
        SpokenWhileWaiting(n, dither, before, i);
      }
    }
  }

  lemma StartsToWait(s: State, e: Event, i: nat)
    requires Step(s, e).Some? && i < |Step(s, e).value.pcs| && Step(s, e).value.pcs[i].Asked?
    ensures |s.pcs| == |Step(s, e).value.pcs|
    ensures if e == Ask(i) then !s.spoken && !Step(s, e).value.spoken else s.pcs[i].Asked?
    ensures Step(s, e).value.spoken == if e.Activate? then true else if e.ActivateFails? then false else s.spoken
  {
    hide NextStep, Borrowed, Uploading, Owns;
    if e.Next? {
      NextWaits(s, e.who, e.declared, i);
    }
  }

  lemma NextWaits(s: State, who: nat, declared: bool, i: nat)
    requires who < |s.pcs| && NextStep(s, who, declared).Some?
    ensures
      var t := NextStep(s, who, declared).value;
      && |t.pcs| == |s.pcs| && t.spoken == s.spoken
      && (i < |s.pcs| && t.pcs[i].Asked? ==> s.pcs[i].Asked?)
  {
    NextKeepsCount(s, who, declared);
    var t := NextStep(s, who, declared).value;
    if i < |s.pcs| {
      if i == who {
        assert !t.pcs[i].Asked?;
      } else {
        assert t.pcs[i] == s.pcs[i];
      }
    }
  }

  /** The wait of a handler that asks ends with the claim in its hands exactly when nobody holds it; and the slot
      it then stages over is spoken for exactly when an activation that has not failed was requested after
      the handler asked. It does not look again. */
  lemma ClaimsASpokenSlotExactlyWhen(n: nat, dither: bool, es: seq<Event>, i: nat)
    requires Run(n, dither, es).Some? && i < |Run(n, dither, es).value.pcs|
    requires Run(n, dither, es).value.pcs[i].Asked?
    ensures
      var s := Run(n, dither, es).value;
      var t := Step(s, Exchange(i)).value;
      && (Owns(t.pcs[i]) <==> forall j :: 0 <= j < |s.pcs| ==> !Owns(s.pcs[j]))
      && (Owns(t.pcs[i]) && t.spoken
          <==> (forall j :: 0 <= j < |s.pcs| ==> !Owns(s.pcs[j])) && ActivatedSinceAsked(es, i))
  {
    hide Run, ActivatedSinceAsked;
    ClaimIsExclusive(n, dither, es);
    SpokenWhileWaiting(n, dither, es, i);
  }

  lemma Goes(n: nat, dither: bool, es: seq<Event>, s: State, e: Event, t: State) returns (longer: seq<Event>, u: State)
    requires Run(n, dither, es) == Some(s) && Step(s, e).Some?
    requires Step(s, e).value.pcs == t.pcs && Step(s, e).value.(pcs := t.pcs) == t
    ensures longer == es + [e] && u == t && Run(n, dither, longer) == Some(t)
  {
    hide Step;
    longer, u := es + [e], t;
    assert longer[..|longer| - 1] == es;
  }

  lemma BootRuns(n: nat, dither: bool)
    ensures Run(n, dither, []) == Some(Boot(n, dither))
  {
  }

  /** The first upload is under way and the second handler has asked. */
  lemma FirstUploadWhileTheSecondWaits() returns (es: seq<Event>, s: State)
    ensures Run(2, true, es) == Some(s) && Ask(1) in es
    ensures s == State(true, 0, false, true, false, true, [Holding(true), Asked])
  {
    hide Run;
    es := [];
    BootRuns(2, true);
    s := State(false, NO_PERCENT, true, false, false, true, [Idle, Idle]);
    assert Boot(2, true) == s;
    es, s := Goes(2, true, es, s, Ask(0), State(false, NO_PERCENT, true, false, false, true, [Asked, Idle]));
    es, s := Goes(2, true, es, s, Exchange(0), State(true, NO_PERCENT, true, false, false, true, [Claimed, Idle]));
    es, s := Goes(2, true, es, s, Next(0, true), State(true, 0, true, false, false, true, [Measured, Idle]));
    es, s := Goes(2, true, es, s, Next(0, true), State(true, 0, false, false, false, true, [Swapped(true), Idle]));
    es, s := Goes(2, true, es, s, Next(0, true), State(true, 0, false, true, false, true, [Holding(true), Idle]));
    es, s := Goes(2, true, es, s, Ask(1), State(true, 0, false, true, false, true, [Holding(true), Asked]));
  }

  /** And then the first one ends. */
  lemma FirstUploadEnds() returns (es: seq<Event>, s: State)
    ensures Run(2, true, es) == Some(s) && Ask(1) in es
    ensures s == State(false, NO_PERCENT, true, false, false, true, [Idle, Asked])
  {
    hide Run;
    es, s := FirstUploadWhileTheSecondWaits();
    es, s := Goes(2, true, es, s, End(0), State(true, 0, false, false, false, true, [Unmarked(true), Asked]));
    es, s := Goes(2, true, es, s, Next(0, true), State(true, 0, true, false, false, true, [Undithered, Asked]));
    es, s := Goes(2, true, es, s, Next(0, true), State(true, NO_PERCENT, true, false, false, true, [Unmeasured, Asked]));
    es, s := Goes(2, true, es, s, Next(0, true), State(false, NO_PERCENT, true, false, false, true, [Idle, Asked]));
  }

  /** It happens: the second handler has been told the slot is free and is waiting when the first one's
      upload is accepted and its activation requested; then it stages over it. */
  lemma AnActivatedSlotIsStagedOver() returns (es: seq<Event>)
    ensures Ask(1) in es && Activate in es
    ensures
      var s := Run(2, true, es);
      s.Some? && s.value.spoken && |s.value.pcs| == 2 && Uploading(s.value.pcs[1])
  {
    hide Run;
    var s: State;
    es, s := FirstUploadEnds();
    es, s := Goes(2, true, es, s, Activate, State(false, NO_PERCENT, true, false, true, true, [Idle, Asked]));
    es, s := Goes(2, true, es, s, Exchange(1), State(true, NO_PERCENT, true, false, true, true, [Idle, Claimed]));
    es, s := Goes(2, true, es, s, Next(1, true), State(true, 0, true, false, true, true, [Idle, Measured]));
    es, s := Goes(2, true, es, s, Next(1, true), State(true, 0, false, false, true, true, [Idle, Swapped(true)]));
    es, s := Goes(2, true, es, s, Next(1, true), State(true, 0, false, true, true, true, [Idle, Holding(true)]));
  }

  // -------------------------------------------------------------------------
  // The code
  // -------------------------------------------------------------------------

  datatype Refusal = TooLarge | Busy | Flash

  lemma OneMore(n: nat, dither: bool, es: seq<Event>, s: State, e: Event)
    requires Run(n, dither, es) == Some(s)
    ensures Run(n, dither, es + [e]) == Step(s, e)
  {
    hide Step;
    assert (es + [e])[..|es + [e]| - 1] == es;
  }

  /** The claim is taken and everything that goes with it set. */
  lemma StepsOfStart(s: State, i: nat, declared: bool)
    requires i < |s.pcs| && s.pcs[i].Asked? && !s.claim
    ensures
      var next := Next(i, declared);
      var s1 := s.(claim := true, pcs := s.pcs[i := Claimed]);
      var s2 := s1.(percent := if declared then 0 else NO_PERCENT, pcs := s1.pcs[i := Measured]);
      var s3 := s2.(dither := false, pcs := s2.pcs[i := Swapped(s.dither)]);
      var s4 := s3.(inUpload := true, pcs := s3.pcs[i := Holding(s.dither)]);
      && Step(s, Exchange(i)) == Some(s1) && Step(s1, NoRoom(i)) == Some(s1.(claim := false, pcs := s1.pcs[i := Idle]))
      && Step(s1, next) == Some(s2) && Step(s2, next) == Some(s3) && Step(s3, next) == Some(s4)
  {
  }

  lemma StepOfBusy(s: State, i: nat)
    requires i < |s.pcs| && s.pcs[i].Asked? && s.claim
    ensures Step(s, Exchange(i)) == Some(s.(pcs := s.pcs[i := Idle]))
  {
  }

  /** And put back. */
  lemma StepsOfEnd(s: State, i: nat, was: bool)
    requires i < |s.pcs| && s.pcs[i] == Holding(was)
    ensures
      var next := Next(i, false);
      var s1 := s.(inUpload := false, pcs := s.pcs[i := Unmarked(was)]);
      var s2 := s1.(dither := was, pcs := s1.pcs[i := Undithered]);
      var s3 := s2.(percent := NO_PERCENT, pcs := s2.pcs[i := Unmeasured]);
      var s4 := s3.(claim := false, pcs := s3.pcs[i := Idle]);
      && Step(s, Event.End(i)) == Some(s1) && Step(s1, next) == Some(s2) && Step(s2, next) == Some(s3)
      && Step(s3, next) == Some(s4)
  {
  }

  lemma StartRuns(n: nat, dither: bool, es: seq<Event>, s: State, i: nat, declared: bool)
    requires Run(n, dither, es) == Some(s) && i < |s.pcs| && s.pcs[i].Asked? && !s.claim
    ensures
      var next, asked := Next(i, declared), es + [Exchange(i)];
      && Run(n, dither, asked + [NoRoom(i)]) == Some(s.(pcs := s.pcs[i := Idle]))
      && Run(n, dither, asked + [next] + [next] + [next]) == Some(
           s.(claim := true, percent := if declared then 0 else NO_PERCENT, dither := false, inUpload := true,
              pcs := s.pcs[i := Holding(s.dither)]))
  {
    hide Run, Step;
    StepsOfStart(s, i, declared);
    var next, asked := Next(i, declared), es + [Exchange(i)];
    var s1 := s.(claim := true, pcs := s.pcs[i := Claimed]);
    var s2 := s1.(percent := if declared then 0 else NO_PERCENT, pcs := s1.pcs[i := Measured]);
    var s3 := s2.(dither := false, pcs := s2.pcs[i := Swapped(s.dither)]);
    OneMore(n, dither, es, s, Exchange(i));
    OneMore(n, dither, asked, s1, NoRoom(i));
    OneMore(n, dither, asked, s1, next);
    OneMore(n, dither, asked + [next], s2, next);
    OneMore(n, dither, asked + [next] + [next], s3, next);
    assert s1.pcs[i := Idle] == s.pcs[i := Idle];
    assert s3.pcs[i := Holding(s.dither)] == s.pcs[i := Holding(s.dither)];
  }

  lemma EndRuns(n: nat, dither: bool, es: seq<Event>, s: State, i: nat, was: bool)
    requires Run(n, dither, es) == Some(s) && i < |s.pcs| && s.pcs[i] == Holding(was)
    ensures
      var next := Next(i, false);
      Run(n, dither, es + [Event.End(i)] + [next] + [next] + [next]) == Some(
        s.(claim := false, percent := NO_PERCENT, dither := was, inUpload := false, pcs := s.pcs[i := Idle]))
  {
    hide Run, Step;
    StepsOfEnd(s, i, was);
    var next, ended := Next(i, false), es + [Event.End(i)];
    var s1 := s.(inUpload := false, pcs := s.pcs[i := Unmarked(was)]);
    var s2 := s1.(dither := was, pcs := s1.pcs[i := Undithered]);
    var s3 := s2.(percent := NO_PERCENT, pcs := s2.pcs[i := Unmeasured]);
    OneMore(n, dither, es, s, Event.End(i));
    OneMore(n, dither, ended, s1, next);
    OneMore(n, dither, ended + [next], s2, next);
    OneMore(n, dither, ended + [next] + [next], s3, next);
    assert s3.pcs[i := Idle] == s.pcs[i := Idle];
  }

  /** The flags, with where each handler is and the run so far beside them. */
  class Flags {
    var claim: bool
    var percent: int
    var dither: bool
    var inUpload: bool
    var spoken: bool
    ghost const handlers: nat
    ghost const first: bool
    ghost var pcs: seq<Pc>
    ghost var outside: bool
    ghost var es: seq<Event>

    ghost function Now(): State
      reads this
    {
      State(claim, percent, dither, inUpload, spoken, outside, pcs)
    }

    ghost predicate Valid()
      reads this
    {
      Run(handlers, first, es) == Some(Now())
    }

    constructor (ghost handlers: nat, ditherOn: bool)
      ensures Valid() && Now() == Boot(handlers, ditherOn)
    {
      claim, percent, dither, inUpload, spoken := false, NO_PERCENT, ditherOn, false, false;
      this.handlers, first, outside, es := handlers, ditherOn, ditherOn, [];
      pcs := seq(handlers, _ => Idle);
      new;
      BootRuns(handlers, ditherOn);
    }

    /** The refusals a handler asks for before it waits for the claim. A body too long is refused before the
        flags are looked at. */
    method Refused(ghost who: nat, slotLen: nat, declared: Option<nat>) returns (why: Option<Refusal>)
      requires Valid() && who < |pcs| && pcs[who].Idle?
      modifies this`pcs, this`es
      ensures Valid() && |pcs| == |old(pcs)|
      ensures why == Some(TooLarge) <==> declared.Some? && declared.value > slotLen
      ensures if why == Some(TooLarge) then es == old(es) else es == old(es) + [Ask(who)]
      ensures pcs[who] == if why.None? then Asked else Idle
      ensures why.None? || why == Some(TooLarge) || (why == Some(Busy) && spoken)
    {
      hide Run;
      if declared.Some? && declared.value > slotLen {
        return Some(TooLarge);
      }
      OneMore(handlers, first, es, Now(), Ask(who));
      es := es + [Ask(who)];
      if spoken {
        return Some(Busy);
      }
      pcs := pcs[who := Asked];
      return None;
    }

    /** `Upload::start` from the compare-exchange on, which nothing interrupts. `room` is whether the heap
        can spare the buffer; the answer carries the dither setting to put back. */
    method Start(ghost who: nat, declared: Option<nat>, room: bool) returns (r: Result<bool, Refusal>)
      requires Valid() && who < |pcs| && pcs[who].Asked?
      modifies this`claim, this`percent, this`dither, this`inUpload, this`pcs, this`es
      ensures Valid() && |pcs| == |old(pcs)|
      ensures r == if old(claim) then Err(Busy) else if !room then Err(Flash) else Ok(outside)
      ensures pcs[who] == if r.Ok? then Holding(r.value) else Idle
      ensures
        var next, asked := Next(who, declared.Some?), old(es) + [Exchange(who)];
        es == if old(claim) then asked else if !room then asked + [NoRoom(who)] else asked + [next] + [next] + [next]
      ensures r.Ok? ==> claim && !dither && inUpload && percent == if declared.Some? then 0 else NO_PERCENT
      ensures r.Ok? ==> (spoken <==> ActivatedSinceAsked(old(es), who))
      ensures r.Err? ==>
        claim == old(claim) && percent == old(percent) && dither == old(dither) && inUpload == old(inUpload)
    {
      hide Run, Step, ActivatedSinceAsked;
      SpokenWhileWaiting(handlers, first, es, who);
      if claim {
        StepOfBusy(Now(), who);
        OneMore(handlers, first, es, Now(), Exchange(who));
        es, pcs := es + [Exchange(who)], pcs[who := Idle];
        return Err(Busy);
      }
      EverythingIsPutBack(handlers, first, es);
      StartRuns(handlers, first, es, Now(), who, declared.Some?);
      claim, es := true, es + [Exchange(who)];
      if !room {
        claim, es, pcs := false, es + [NoRoom(who)], pcs[who := Idle];
        return Err(Flash);
      }
      percent := if declared.Some? then 0 else NO_PERCENT;
      var was := dither;
      dither := false;
      inUpload := true;
      ghost var next := Next(who, declared.Some?);
      es, pcs := es + [next] + [next] + [next], pcs[who := Holding(was)];
      return Ok(was);
    }

    /** `Drop`: everything is idle again and the dither setting what was asked for outside the upload. */
    method End(ghost who: nat, was: bool)
      requires Valid() && who < |pcs| && pcs[who] == Holding(was)
      modifies this`claim, this`percent, this`dither, this`inUpload, this`pcs, this`es
      ensures Valid() && pcs == old(pcs)[who := Idle]
      ensures
        var next := Next(who, false);
        es == old(es) + [Event.End(who)] + [next] + [next] + [next]
      ensures !claim && percent == NO_PERCENT && !inUpload && dither == outside == was
    {
      hide Run, Step;
      EndRuns(handlers, first, es, Now(), who, was);
      inUpload := false;
      dither := was;
      percent := NO_PERCENT;
      claim := false;
      ghost var next := Next(who, false);
      es, pcs := es + [Event.End(who)] + [next] + [next] + [next], pcs[who := Idle];
      EverythingIsPutBack(handlers, first, es);
    }
  }
}
