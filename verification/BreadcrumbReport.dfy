/** What the report says after a run of boots, upload notes and panics that all finish: the boots, the panics, and
    the last panic as it was. */
module BreadcrumbReport {
  import opened Common
  import opened Breadcrumb
  import opened BreadcrumbCrash
  import opened BreadcrumbHonesty
  import opened Words
  import CrashLoop

  function BootsOf(ops: seq<Op>): Word {
    if ops == [] then 0
    else if Last(ops).Boot? then SaturatingInc(BootsOf(ops[..|ops| - 1]))
    else BootsOf(ops[..|ops| - 1])
  }

  function CountOf(ops: seq<Op>): Word {
    if ops == [] then 0
    else if Last(ops).Panic? then SaturatingInc(CountOf(ops[..|ops| - 1]))
    else CountOf(ops[..|ops| - 1])
  }

  /** The last panic, the boot it was in, and how many quick ones in a row it made. */
  function LastOf(ops: seq<Op>): Option<LastPanic> {
    if ops == [] then None
    else if Last(ops).Panic? then
      var p := Last(ops).info;
      Some(LastPanic(p.uptime, BootsOf(ops), p.line, CrashLoop.InARow(CrashLoop.PanicsOf(ops)), p.file,
                     Some(p.what), p.pc, p.addr))
    else LastOf(ops[..|ops| - 1])
  }

  // -------------------------------------------------------------------------
  // One operation
  // -------------------------------------------------------------------------

  /** A word that neither a boot nor an upload's note writes. */
  predicate Elsewhere(i: nat) {
    i != W_BOOTS && i != W_PREV_RESET && i != W_SECTOR && i != W_FLAGS && i != W_CHECK
  }

  /** The panic's part of the report. */
  predicate SamePanic(s: Region, r: Region) {
    ReportOf(s).panics == ReportOf(r).panics && ReportOf(s).last == ReportOf(r).last
  }

  lemma SameWordsSamePanic(s: Region, r: Region)
    requires Intact(s) && Intact(r) && forall i: nat :: i < WORDS && Elsewhere(i) ==> s[i] == r[i]
    requires Bit(s[W_FLAGS], F_PANIC) <==> Bit(r[W_FLAGS], F_PANIC)
    ensures SamePanic(s, r)
  {
    hide Intact, Bit, WhatChecksum;
    assert s[W_FILE..W_FILE + 3] == r[W_FILE..W_FILE + 3];
    assert s[W_WHAT..W_WHAT_CHECK] == r[W_WHAT..W_WHAT_CHECK];
    SameTail(s, r);
  }

  lemma UploadBitKeepsPanic(flags: Word, busy: bool)
    ensures Bit(UploadBit(flags, busy), F_PANIC) <==> Bit(flags, F_PANIC)
  {
  }

  /** A short update that leaves the panics alone. */
  lemma ShortKeepsPanic(s: Region, ps: seq<Put>)
    requires Intact(s) && Plain(ps) && |ps| <= 2 && forall p :: p in ps ==> !Elsewhere(p.at)
    requires forall p :: p in ps && p.at == W_FLAGS ==> (Bit(p.v, F_PANIC) <==> Bit(s[W_FLAGS], F_PANIC))
    ensures
      var r := Apply(s, Sealed(s, ps));
      Intact(r) && SamePanic(s, r) && ((forall p :: p in ps ==> p.at != W_BOOTS) ==> r[W_BOOTS] == s[W_BOOTS])
  {
    hide Bit, Intact, Apply, Checksum, SamePanic;
    ShortUpdateIsAtomic(s, ps, 0);
    var all := Sealed(s, ps);
    var r := Apply(s, all);
    forall i: nat | i < WORDS && Elsewhere(i) ensures r[i] == s[i] {
      ApplyKeeps(s, all, i);
    }
    CrashLoop.FlagsAfter(s, all);
    SameWordsSamePanic(s, r);
    if forall p :: p in ps ==> p.at != W_BOOTS {
      ApplyKeeps(s, all, W_BOOTS);
    }
  }

  lemma EmptyReport()
    ensures ReportOf(Empty()) == Report(0, 0, None, false) && Empty()[W_BOOTS] == 0
    ensures ReportOf(Blank()) == Report(0, 0, None, false) && Blank()[W_BOOTS] == 0 && !Intact(Blank())
  {
    hide Checksum, WhatChecksum;
    NoBits(F_PANIC);
    NoBits(F_HALT);
    WipeLeavesEmpty(Blank());
  }

  lemma RepairedReport(s: Region)
    requires CrashLoop.Sound(s)
    ensures Intact(Repaired(s)) && SamePanic(s, Repaired(s)) && ReportOf(s).boots == Repaired(s)[W_BOOTS]
  {
    hide Intact, ReportOf, Checksum, RepairWrites;
    RepairedIsIntact(s);
    EmptyReport();
    if Intact(s) {
      BootsAre(s);
    }
  }

  lemma BootsAre(s: Region)
    requires Intact(s)
    ensures ReportOf(s).boots == s[W_BOOTS]
  {
    hide Bit, WhatChecksum;
  }

  lemma BootReports(s: Region, reason: Word)
    requires CrashLoop.Sound(s)
    ensures
      var r := Apply(s, BootWrites(s, reason));
      Intact(r) && SamePanic(s, r) && ReportOf(r).boots == SaturatingInc(ReportOf(s).boots)
  {
    hide Bit, Intact, Apply, RepairWrites, UploadBit, SaturatingInc, ReportOf, Sealed;
    RepairedReport(s);
    var s1 := Repaired(s);
    var count := [Put(W_BOOTS, SaturatingInc(s1[W_BOOTS])), Put(W_PREV_RESET, reason)];
    ShortKeepsPanic(s1, count);
    var s2 := Apply(s1, CountWrites(s1, reason));
    CountIsWritten(s1, reason);
    ApplyCat(s, RepairWrites(s), CountWrites(s1, reason));
    ApplyCat(s, RepairWrites(s) + CountWrites(s1, reason), ClearUploadWrites(s2));
    if Bit(s2[W_FLAGS], F_IN_UPLOAD) {
      UploadBitKeepsPanic(s2[W_FLAGS], false);
      ShortKeepsPanic(s2, [Put(W_FLAGS, UploadBit(s2[W_FLAGS], false))]);
    } else {
      ApplyNone(s2);
    }
    BootsAre(Apply(s2, ClearUploadWrites(s2)));
  }

  lemma CountIsWritten(s: Region, reason: Word)
    ensures Apply(s, CountWrites(s, reason))[W_BOOTS] == SaturatingInc(s[W_BOOTS])
  {
    hide Apply, Checksum, SaturatingInc;
    ApplySets(s, CountWrites(s, reason), 0);
  }

  lemma UploadReports(s: Region, busy: bool)
    requires CrashLoop.Sound(s)
    ensures
      var r := Apply(s, UploadWrites(s, busy));
      Intact(r) && SamePanic(s, r) && ReportOf(r).boots == ReportOf(s).boots
  {
    hide Bit, Intact, Apply, RepairWrites, UploadBit, ReportOf, Sealed;
    RepairedReport(s);
    var s1 := Repaired(s);
    ApplyCat(s, RepairWrites(s), MarkUploadWrites(s1, busy));
    var next := UploadBit(s1[W_FLAGS], busy);
    if next != s1[W_FLAGS] {
      UploadBitKeepsPanic(s1[W_FLAGS], busy);
      ShortKeepsPanic(s1, [Put(W_SECTOR, 0), Put(W_FLAGS, next)]);
    } else {
      ApplyNone(s1);
    }
    BootsAre(Apply(s1, MarkUploadWrites(s1, busy)));
  }

  lemma SectorReports(s: Region, sectors: Word)
    requires CrashLoop.Sound(s)
    ensures
      var r := Apply(s, SectorWrites(s, sectors));
      CrashLoop.Sound(r) && SamePanic(s, r) && ReportOf(r).boots == ReportOf(s).boots
  {
    hide Apply, ReportOf, Sealed, Checksum;
    ApplyNone(s);
    if Intact(s) {
      ShortKeepsPanic(s, [Put(W_SECTOR, sectors)]);
      BootsAre(s);
      BootsAre(Apply(s, SectorWrites(s, sectors)));
    }
  }

  /** A finished panic is reported as it was. */
  lemma PanicReports(s: Region, p: PanicInfo)
    requires CrashLoop.Sound(s) && Packed(p)
    ensures
      var r, run := Apply(s, PanicWrites(s, p)), NewRun(s, p.uptime);
      && Intact(r) && ReportOf(r).boots == ReportOf(s).boots && ReportOf(r).panics == SaturatingInc(ReportOf(s).panics)
      && ReportOf(r).last ==
           Some(LastPanic(p.uptime, ReportOf(s).boots, p.line, run, p.file, Some(p.what), p.pc, p.addr))
  {
    hide Bit, Intact, Apply, RepairWrites, Sealed, RecordBody, WhatWrites, ReportOf, SaturatingInc, NewRun, PanicFlags;
    RepairedReport(s);
    CrashLoop.RepairKeepsGuard(s);
    var s1 := Repaired(s);
    var head := Sealed(s1, RecordBody(s1, p));
    var s2 := Apply(s1, head);
    ApplyCat(s, RepairWrites(s), head);
    ApplyCat(s, RecordWrites(s, p), WhatWrites(s2, p));
    SameNewRun(s, s1, p.uptime);
    PanicsAre(s1);
    HeadSets(s1, p);
    TailReports(s2, p);
  }

  lemma SameNewRun(s: Region, r: Region, uptime: Word)
    requires s[W_RUN] == r[W_RUN]
    ensures NewRun(s, uptime) == NewRun(r, uptime)
  {
  }

  lemma PanicsAre(s: Region)
    requires Intact(s)
    ensures ReportOf(s).panics == s[W_PANICS]
  {
    hide Bit, WhatChecksum;
  }

  lemma HeadSets(s: Region, p: PanicInfo)
    requires Intact(s) && Packed(p)
    ensures
      var r := Apply(s, Sealed(s, RecordBody(s, p)));
      && Intact(r) && ShowsPlace(r, p) && r[W_BOOTS] == r[W_PANIC_BOOT] == s[W_BOOTS]
      && r[W_PANICS] == SaturatingInc(s[W_PANICS]) && r[W_RUN] == NewRun(s, p.uptime) && Bit(r[W_FLAGS], F_PANIC)
  {
    hide Apply, Checksum, Intact, SaturatingInc, NewRun, PanicFlags, Bit, RecordBody, Sealed;
    CrashLoop.HeadMovesGuard(s, p);
    HeadShowsPlace(s, p);
    HeadCounts(s, p);
    PanicIsFlagged(s[W_FLAGS], NewRun(s, p.uptime));
  }

  lemma HeadCounts(s: Region, p: PanicInfo)
    requires Packed(p)
    ensures
      var r := Apply(s, Sealed(s, RecordBody(s, p)));
      r[W_BOOTS] == r[W_PANIC_BOOT] == s[W_BOOTS] && r[W_PANICS] == SaturatingInc(s[W_PANICS])
  {
    hide Apply, Checksum, SaturatingInc, NewRun, PanicFlags;
    var all := Sealed(s, RecordBody(s, p));
    ApplySets(s, all, 0);
    ApplySets(s, all, 3);
    ApplyKeeps(s, all, W_BOOTS);
  }

  lemma TailReports(s: Region, p: PanicInfo)
    requires Intact(s) && Packed(p) && ShowsPlace(s, p) && Bit(s[W_FLAGS], F_PANIC)
    ensures
      var r := Apply(s, WhatWrites(s, p));
      && Intact(r) && ReportOf(r).boots == s[W_BOOTS] && ReportOf(r).panics == s[W_PANICS]
      && ReportOf(r).last ==
           Some(LastPanic(p.uptime, s[W_PANIC_BOOT], p.line, s[W_RUN], p.file, Some(p.what), p.pc, p.addr))
  {
    hide Apply, WhatChecksum, Has, OrZero, Bit, Intact;
    var ws := WhatWrites(s, p);
    var r := Apply(s, ws);
    CrashLoop.TailKeepsIntact(s, p);
    TailKeepsHead(s, ws);
    assert ws[..WHAT_WORDS + 5] == ws;
    TailShows(s, p, WHAT_WORDS + 5);
    TailIsIntact(s, p);
    HasSays(p);
    OrZeroIs(p.pc);
    OrZeroIs(p.addr);
  }

  lemma OrZeroIs(w: Option<Word>)
    ensures w.Some? ==> OrZero(w) == w.value
  {
  }

  lemma TailIsIntact(s: Region, p: PanicInfo)
    requires Packed(p)
    ensures Apply(s, WhatWrites(s, p))[W_WHAT_CHECK] == WhatChecksum(Apply(s, WhatWrites(s, p)))
  {
    hide Apply, Xor, Has, OrZero;
    var body := WhatBody(s, p);
    var t := Apply(s, body);
    var check := Put(W_WHAT_CHECK, WhatChecksum(t));
    ApplyOne(s, body, check);
    assert t[W_WHAT_CHECK := check.v][W_WHAT_FOR..W_WHAT_CHECK] == t[W_WHAT_FOR..W_WHAT_CHECK];
  }

  // -------------------------------------------------------------------------
  // Whole runs
  // -------------------------------------------------------------------------

  predicate Says(r: Report, ops: seq<Op>) {
    r.boots == BootsOf(ops) && r.panics == CountOf(ops) && r.last == LastOf(ops)
  }

  lemma QuietSays(s: Region, before: seq<Op>, op: Op)
    requires CrashLoop.Sound(s) && WellFormed(op) && !op.Panic? && Says(ReportOf(s), before)
    ensures Says(ReportOf(Apply(s, Writes(s, op))), before + [op])
  {
    hide Apply, Intact, ReportOf, BootWrites, UploadWrites, SectorWrites, SaturatingInc;
    assert (before + [op])[..|before + [op]| - 1] == before;
    match op
    case Boot(reason) => BootReports(s, reason);
    case Upload(busy) => UploadReports(s, busy);
    case Sector(sectors) => SectorReports(s, sectors);
  }

  lemma PanicSays(s: Region, before: seq<Op>, p: PanicInfo)
    requires CrashLoop.GuardedBy(s, CrashLoop.PanicsOf(before)) && Packed(p) && Says(ReportOf(s), before)
    ensures Says(ReportOf(Apply(s, PanicWrites(s, p))), before + [Panic(p)])
  {
    hide Apply, Intact, ReportOf, PanicWrites, SaturatingInc, Bit, CrashLoop.Reached;
    assert (before + [Panic(p)])[..|before + [Panic(p)]| - 1] == before;
    PanicReports(s, p);
    var ps := CrashLoop.PanicsOf(before);
    assert (ps + [p])[..|ps + [p]| - 1] == ps;
  }

  /** In every run since power-on the report counts the boots and the panics, and the last panic it shows is the last
      there was: where and when it happened, in which boot, its message and numbers, and how many quick ones
      there were in a row. */
  lemma {:induction false} ReportIsOfTheRun(ops: seq<Op>)
    requires CrashLoop.WellFormedOps(ops)
    ensures
      var r := ReportOf(CrashLoop.Region(ops));
      && r.boots == BootsOf(ops) && r.panics == CountOf(ops) && r.last == LastOf(ops)
      && (r.halt <==> CrashLoop.Reached(CrashLoop.PanicsOf(ops)))
  {
    hide Apply, Intact, ReportOf, Bit, Writes, CrashLoop.InARow, CrashLoop.Reached;
    CrashLoop.GuardIsTheFold(ops);
    HaltIs(CrashLoop.Region(ops));
    if ops == [] {
      EmptyReport();
    } else {
      var before, op := ops[..|ops| - 1], Last(ops);
      ReportIsOfTheRun(before);
      CrashLoop.GuardIsTheFold(before);
      assert WellFormed(op) && before + [op] == ops;
      if op.Panic? {
        PanicSays(CrashLoop.Region(before), before, op.info);
        PanicWritesAre(CrashLoop.Region(before), op);
      } else {
        QuietSays(CrashLoop.Region(before), before, op);
      }
    }
  }

  lemma PanicWritesAre(s: Region, op: Op)
    requires op.Panic? && WellFormed(op)
    ensures Writes(s, op) == PanicWrites(s, op.info)
  {
  }

  lemma HaltIs(s: Region)
    requires CrashLoop.Sound(s)
    ensures ReportOf(s).halt <==> Bit(s[W_FLAGS], F_HALT)
  {
    hide Bit, WhatChecksum, Checksum;
    NoBits(F_HALT);
  }
}
