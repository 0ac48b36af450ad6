/** The crash-loop guard over whole runs: boots, upload notes and panics that all finish. */
module CrashLoop {
  import opened Common
  import opened Breadcrumb
  import opened BreadcrumbCrash
  import opened BreadcrumbHonesty
  import opened Words

  predicate WellFormedOps(ops: seq<Op>) {
    forall op :: op in ops ==> WellFormed(op)
  }

  /** The region after power-on and then all of these. */
  function Region(ops: seq<Op>): (s: Breadcrumb.Region)
    requires WellFormedOps(ops)
  {
    if ops == [] then Blank()
    else
      var s := Region(ops[..|ops| - 1]);
      Apply(s, Writes(s, Last(ops)))
  }

  function PanicsOf(ops: seq<Op>): (r: seq<PanicInfo>)
    ensures |r| <= |ops|
  {
    if ops == [] then []
    else if Last(ops).Panic? then PanicsOf(ops[..|ops| - 1]) + [Last(ops).info]
    else PanicsOf(ops[..|ops| - 1])
  }

  predicate Quick(p: PanicInfo) {
    p.uptime < 60_000
  }

  /** Quick panics in a row: a quick one adds one, a slow one starts again at one. */
  function InARow(ps: seq<PanicInfo>): Word {
    if ps == [] then 0
    else if Quick(Last(ps)) then SaturatingInc(InARow(ps[..|ps| - 1]))
    else 1
  }

  /** There were five in a row at some time. */
  predicate Reached(ps: seq<PanicInfo>) {
    ps != [] && (InARow(ps) >= 5 || Reached(ps[..|ps| - 1]))
  }

  /** `record` answers "reset" rather than "halt" to a panic that finds this region. */
  predicate WouldReset(s: Breadcrumb.Region) {
    !Bit(Repaired(s)[W_FLAGS], F_HALT)
  }

  /** How many panics of the run reset the chip. */
  function Resets(ops: seq<Op>): nat
    requires WellFormedOps(ops)
  {
    if ops == [] then 0
    else
      var before := ops[..|ops| - 1];
      Resets(before) + if Last(ops).Panic? && WouldReset(Region(before)) then 1 else 0
  }

  // -------------------------------------------------------------------------
  // One operation
  // -------------------------------------------------------------------------

  /** Written by this firmware, or just powered on. */
  predicate Sound(s: Breadcrumb.Region) {
    Intact(s) || s == Blank()
  }

  /** What the guard goes by. */
  predicate SameGuard(s: Breadcrumb.Region, r: Breadcrumb.Region) {
    s[W_RUN] == r[W_RUN] && (Bit(s[W_FLAGS], F_HALT) <==> Bit(r[W_FLAGS], F_HALT))
  }

  lemma RepairKeepsGuard(s: Breadcrumb.Region)
    requires Sound(s)
    ensures Intact(Repaired(s)) && SameGuard(s, Repaired(s))
  {
    hide Bit, Checksum, Repaired;
    RepairedIsIntact(s);
  }

  lemma UploadBitKeepsHalt(flags: Word, busy: bool)
    ensures Bit(UploadBit(flags, busy), F_HALT) <==> Bit(flags, F_HALT)
  {
  }

  lemma ShortUpdateKeepsGuard(s: Breadcrumb.Region, ps: seq<Put>)
    requires Intact(s) && Plain(ps) && |ps| <= 2
    requires forall p :: p in ps ==> p.at != W_RUN
    requires forall p :: p in ps && p.at == W_FLAGS ==> (Bit(p.v, F_HALT) <==> Bit(s[W_FLAGS], F_HALT))
    ensures Intact(Apply(s, Sealed(s, ps))) && SameGuard(s, Apply(s, Sealed(s, ps)))
  {
    hide Bit, Intact, Apply, Checksum;
    ShortUpdateIsAtomic(s, ps, 0);
    ApplyKeeps(s, Sealed(s, ps), W_RUN);
    FlagsAfter(s, Sealed(s, ps));
  }

  lemma {:induction false} FlagsAfter(s: Breadcrumb.Region, ps: seq<Put>)
    requires Inside(ps)
    ensures Apply(s, ps)[W_FLAGS] == s[W_FLAGS]
      || exists i :: 0 <= i < |ps| && ps[i].at == W_FLAGS && ps[i].v == Apply(s, ps)[W_FLAGS]
  {
    if ps != [] {
      var n := |ps| - 1;
      FlagsAfter(s, ps[..n]);
      if ps[n].at != W_FLAGS && Apply(s, ps[..n])[W_FLAGS] != s[W_FLAGS] {
        var i :| 0 <= i < n && ps[..n][i].at == W_FLAGS && ps[..n][i].v == Apply(s, ps[..n])[W_FLAGS];
        assert ps[i] == ps[..n][i];
      }
    }
  }

  lemma BootKeepsGuard(s: Breadcrumb.Region, reason: Word)
    requires Sound(s)
    ensures Intact(Apply(s, BootWrites(s, reason))) && SameGuard(s, Apply(s, BootWrites(s, reason)))
  {
    hide Bit, Intact, Apply, Sound, RepairWrites, UploadBit, SaturatingInc, Sealed, SameGuard;
    RepairKeepsGuard(s);
    var s1 := Repaired(s);
    ShortUpdateKeepsGuard(s1, [Put(W_BOOTS, SaturatingInc(s1[W_BOOTS])), Put(W_PREV_RESET, reason)]);
    var s2 := Apply(s1, CountWrites(s1, reason));
    ApplyCat(s, RepairWrites(s), CountWrites(s1, reason));
    var s3 := Apply(s2, ClearUploadWrites(s2));
    ApplyCat(s, RepairWrites(s) + CountWrites(s1, reason), ClearUploadWrites(s2));
    if Bit(s2[W_FLAGS], F_IN_UPLOAD) {
      UploadBitKeepsHalt(s2[W_FLAGS], false);
      ShortUpdateKeepsGuard(s2, [Put(W_FLAGS, UploadBit(s2[W_FLAGS], false))]);
    } else {
      ApplyNone(s2);
    }
    SameGuardChain(s, s1, s2, s3);
  }

  lemma SameGuardChain(a: Breadcrumb.Region, b: Breadcrumb.Region, c: Breadcrumb.Region, d: Breadcrumb.Region)
    requires SameGuard(a, b) && SameGuard(b, c) && (SameGuard(c, d) || c == d)
    ensures SameGuard(a, d)
  {
    hide Bit;
  }

  lemma UploadKeepsGuard(s: Breadcrumb.Region, busy: bool)
    requires Sound(s)
    ensures Intact(Apply(s, UploadWrites(s, busy))) && SameGuard(s, Apply(s, UploadWrites(s, busy)))
  {
    hide Bit, Intact, Apply, Sound, RepairWrites, UploadBit, Sealed, SameGuard;
    RepairKeepsGuard(s);
    var s1 := Repaired(s);
    var next := UploadBit(s1[W_FLAGS], busy);
    ApplyCat(s, RepairWrites(s), MarkUploadWrites(s1, busy));
    if next != s1[W_FLAGS] {
      UploadBitKeepsHalt(s1[W_FLAGS], busy);
      ShortUpdateKeepsGuard(s1, [Put(W_SECTOR, 0), Put(W_FLAGS, next)]);
    } else {
      ApplyNone(s1);
    }
    SameGuardChain(s, s, s1, Apply(s1, MarkUploadWrites(s1, busy))) by {
      assert SameGuard(s, s) by { Reflexive(s); }
    }
  }

  lemma Reflexive(s: Breadcrumb.Region)
    ensures SameGuard(s, s)
  {
  }

  lemma SectorKeepsGuard(s: Breadcrumb.Region, sectors: Word)
    requires Sound(s)
    ensures Sound(Apply(s, SectorWrites(s, sectors))) && SameGuard(s, Apply(s, SectorWrites(s, sectors)))
  {
    hide Bit, Intact, Apply, Sealed;
    ApplyNone(s);
    if Intact(s) {
      ShortUpdateKeepsGuard(s, [Put(W_SECTOR, sectors)]);
    }
  }

  lemma PanicMovesGuard(s: Breadcrumb.Region, p: PanicInfo)
    requires Sound(s) && Packed(p)
    ensures
      var r := Apply(s, PanicWrites(s, p));
      && Intact(r) && r[W_RUN] == NewRun(s, p.uptime)
      && (Bit(r[W_FLAGS], F_HALT) <==> Bit(s[W_FLAGS], F_HALT) || r[W_RUN] >= CRASH_LOOP_MAX)
  {
    hide Bit, Intact, Apply, Sound, RepairWrites, RecordBody, WhatWrites, PanicFlags, SaturatingInc;
    RepairKeepsGuard(s);
    var s1 := Repaired(s);
    var head := Sealed(s1, RecordBody(s1, p));
    var s2 := Apply(s1, head);
    ApplyCat(s, RepairWrites(s), head);
    HeadMovesGuard(s1, p);
    ApplyCat(s, RecordWrites(s, p), WhatWrites(s2, p));
    TailKeepsIntact(s2, p);
    PanicFlagsHalt(s1[W_FLAGS], NewRun(s1, p.uptime));
  }

  lemma HeadMovesGuard(s: Breadcrumb.Region, p: PanicInfo)
    requires Intact(s) && Packed(p)
    ensures
      var r := Apply(s, Sealed(s, RecordBody(s, p)));
      Intact(r) && r[W_RUN] == NewRun(s, p.uptime) && r[W_FLAGS] == PanicFlags(s[W_FLAGS], NewRun(s, p.uptime))
  {
    hide Apply, Checksum, NewRun, PanicFlags, SaturatingInc;
    var body := RecordBody(s, p);
    var ps := Sealed(s, body);
    ApplyKeeps(s, body, W_MAGIC);
    SealedIsIntact(s, body);
    ApplySets(s, ps, 1);
    ApplySets(s, ps, 8);
  }

  lemma TailKeepsIntact(s: Breadcrumb.Region, p: PanicInfo)
    requires Intact(s) && Packed(p)
    ensures
      var r := Apply(s, WhatWrites(s, p));
      Intact(r) && r[W_RUN] == s[W_RUN] && r[W_FLAGS] == s[W_FLAGS]
  {
    hide Apply, Xor, WhatChecksum, Has, OrZero;
    var r := Apply(s, WhatWrites(s, p));
    TailKeepsHead(s, WhatWrites(s, p));
    assert r[..W_CHECK] == s[..W_CHECK];
  }

  lemma PanicFlagsHalt(flags: Word, run: Word)
    ensures Bit(PanicFlags(flags, run), F_HALT) <==> Bit(flags, F_HALT) || run >= CRASH_LOOP_MAX
  {
  }

  // -------------------------------------------------------------------------
  // Whole runs
  // -------------------------------------------------------------------------

  predicate GuardedBy(s: Breadcrumb.Region, ps: seq<PanicInfo>) {
    Sound(s) && s[W_RUN] == InARow(ps) && (Bit(s[W_FLAGS], F_HALT) <==> Reached(ps))
  }

  lemma QuietKeepsGuardedBy(s: Breadcrumb.Region, op: Op, ps: seq<PanicInfo>)
    requires WellFormed(op) && !op.Panic? && GuardedBy(s, ps)
    ensures GuardedBy(Apply(s, Writes(s, op)), ps)
  {
    hide Bit, Intact, Apply, BootWrites, UploadWrites, SectorWrites, InARow, Reached;
    match op
    case Boot(reason) => BootKeepsGuard(s, reason);
    case Upload(busy) => UploadKeepsGuard(s, busy);
    case Sector(sectors) => SectorKeepsGuard(s, sectors);
  }

  lemma PanicKeepsGuardedBy(s: Breadcrumb.Region, p: PanicInfo, ps: seq<PanicInfo>)
    requires Packed(p) && GuardedBy(s, ps)
    ensures GuardedBy(Apply(s, PanicWrites(s, p)), ps + [p])
  {
    hide Bit, Intact, Apply, PanicWrites, SaturatingInc;
    PanicMovesGuard(s, p);
    assert (ps + [p])[..|ps + [p]| - 1] == ps;
  }

  /** In every run since power-on the word that counts quick panics is the fold over the panics, and
      the latch is set exactly when that fold has ever been five. */
  lemma {:induction false} GuardIsTheFold(ops: seq<Op>)
    requires WellFormedOps(ops)
    ensures GuardedBy(Region(ops), PanicsOf(ops))
  {
    hide Apply, PanicWrites, BootWrites, UploadWrites, SectorWrites, GuardedBy;
    if ops == [] {
      BlankIsGuarded();
    } else {
      var before := ops[..|ops| - 1];
      var s := Region(before);
      GuardIsTheFold(before);
      assert WellFormed(Last(ops));
      if Last(ops).Panic? {
        PanicKeepsGuardedBy(s, Last(ops).info, PanicsOf(before));
      } else {
        QuietKeepsGuardedBy(s, Last(ops), PanicsOf(before));
      }
    }
  }

  lemma BlankIsGuarded()
    ensures GuardedBy(Blank(), [])
  {
    NoBits(F_HALT);
  }

  /** `record` answers "reset" exactly when five in a row have not been reached. */
  lemma ResetsExactlyUntilReached(ops: seq<Op>)
    requires WellFormedOps(ops)
    ensures WouldReset(Region(ops)) <==> !Reached(PanicsOf(ops))
  {
    hide Bit, Intact, Repaired, InARow, Reached;
    GuardIsTheFold(ops);
    assert Sound(Region(ops));
    RepairKeepsGuard(Region(ops));
  }

  /** `boot` tells `main` not to start exactly when the guard has latched. */
  lemma BootHaltsExactlyWhenReached(ops: seq<Op>, reason: Word)
    requires WellFormedOps(ops)
    ensures
      var s := Region(ops);
      ReportOf(Apply(s, BootWrites(s, reason))).halt <==> Reached(PanicsOf(ops))
  {
    hide Bit, Intact, Apply, BootWrites, Sound;
    GuardIsTheFold(ops);
    BootKeepsGuard(Region(ops), reason);
  }

  /** Of a run of quick panics the first five reset the chip and no other. */
  lemma {:induction false} AtMostFiveResets(ops: seq<Op>)
    requires WellFormedOps(ops) && forall p :: p in PanicsOf(ops) ==> Quick(p)
    ensures Resets(ops) == (if |PanicsOf(ops)| < 5 then |PanicsOf(ops)| else 5)
  {
    hide Apply, WouldReset, Quick;
    if ops != [] {
      var before := ops[..|ops| - 1];
      AtMostFiveResets(before);
      ResetsExactlyUntilReached(before);
      AllQuick(PanicsOf(before));
    }
  }

  lemma {:induction false} AllQuick(ps: seq<PanicInfo>)
    requires forall p :: p in ps ==> Quick(p)
    ensures Reached(ps) <==> |ps| >= 5
    ensures |ps| <= 5 ==> Nat(InARow(ps)) == |ps|
  {
    hide Nat, Quick;
    NatZero(0);
    if ps != [] {
      AllQuick(ps[..|ps| - 1]);
      assert Quick(Last(ps));
      NatInc(InARow(ps[..|ps| - 1]));
      AtLeastFive(InARow(ps));
    }
  }

  lemma AtLeastFive(w: Word)
    ensures w >= CRASH_LOOP_MAX <==> Nat(w) >= 5
  {
    hide Nat;
    NatSteps(w);
  }

  lemma NatSteps(w: Word)
    ensures w >= 5 <==> Nat(w) >= 5
  {
    if w < 5 {
      assert w == 0 || w == 1 || w == 2 || w == 3 || w == 4;
    } else {
      assert Nat(w) == 1 + Nat(w - 1) == 2 + Nat(w - 2) == 3 + Nat(w - 3) == 4 + Nat(w - 4) == 5 + Nat(w - 5);
    }
  }

  /** From any history: five quick panics in a row latch it, and it stays latched. */
  lemma FiveQuickOnesLatch(ps: seq<PanicInfo>, more: seq<PanicInfo>, later: seq<PanicInfo>)
    requires |more| == 5 && forall p :: p in more ==> Quick(p)
    ensures Reached(ps + more + later)
  {
    hide Quick, InARow;
    QuickOnesAdd(ps, more);
    StaysReached(ps + more, later);
  }

  lemma {:induction false} QuickOnesAdd(ps: seq<PanicInfo>, more: seq<PanicInfo>)
    requires |more| <= 5 && forall p :: p in more ==> Quick(p)
    ensures Nat(InARow(ps + more)) >= |more|
    ensures |more| == 5 ==> Reached(ps + more)
    decreases |more|
  {
    hide Nat, Quick;
    if more != [] {
      var shorter := more[..|more| - 1];
      QuickOnesAdd(ps, shorter);
      assert (ps + more)[..|ps + more| - 1] == ps + shorter;
      assert Quick(Last(more)) && Last(ps + more) == Last(more);
      SaturatingAdds(InARow(ps + shorter));
      AtLeastFive(InARow(ps + more));
    }
  }

  lemma SaturatingAdds(w: Word)
    ensures Nat(SaturatingInc(w)) == Nat(w) + 1 || Nat(SaturatingInc(w)) == 0xFFFF_FFFF
  {
    hide Nat;
    NatMore(w);
    NatLast();
  }

  lemma {:induction false} StaysReached(ps: seq<PanicInfo>, later: seq<PanicInfo>)
    requires Reached(ps)
    ensures Reached(ps + later)
    decreases |later|
  {
    if later == [] {
      assert ps + later == ps;
    } else {
      StaysReached(ps, later[..|later| - 1]);
      assert (ps + later)[..|ps + later| - 1] == ps + later[..|later| - 1];
    }
  }
}
