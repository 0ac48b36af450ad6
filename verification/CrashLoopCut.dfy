/** The crash-loop guard when any of the operations may be cut short: what a reset at any word write leaves of
    the count of quick panics and of the latch. */
module CrashLoopCut {
  import opened Common
  import opened Breadcrumb
  import opened BreadcrumbCrash
  import opened BreadcrumbHonesty
  import opened Words
  import CrashLoop

  /** What the next boot or panic goes by. A region that is not accepted is wiped before it is used. */
  datatype Guard = Guard(run: Word, latched: bool)

  const GONE: Guard := Guard(0, false)

  function GuardOf(s: Region): Guard {
    if Intact(s) then Guard(s[W_RUN], Bit(s[W_FLAGS], F_HALT)) else GONE
  }

  /** The guard after a panic of whose record `k` words were written: the second is the count and the ninth
      the flags. */
  function Counted(g: Guard, uptime: Word, k: int): Guard {
    var next := if uptime < 60_000 then SaturatingInc(g.run) else 1;
    if k < 2 then g else Guard(next, g.latched || (k >= 9 && next >= 5))
  }

  // -------------------------------------------------------------------------
  // Wherever an update is cut
  // -------------------------------------------------------------------------

  /** At whatever write the chip is reset, a region that is accepted has this guard. */
  ghost predicate Throughout(s: Region, ws: seq<Put>, g: Guard)
    requires Inside(ws)
  {
    forall k :: 0 <= k <= |ws| && Intact(Apply(s, ws[..k])) ==> GuardOf(Apply(s, ws[..k])) == g
  }

  lemma Both(s: Region, a: seq<Put>, b: seq<Put>, g: Guard)
    requires Inside(a) && Inside(b) && Throughout(s, a, g) && Throughout(Apply(s, a), b, g)
    ensures Inside(a + b) && Throughout(s, a + b, g) && Apply(s, a + b) == Apply(Apply(s, a), b)
  {
    hide GuardOf, Intact, Apply;
    ApplyCat(s, a, b);
    forall k | 0 <= k <= |a + b| && Intact(Apply(s, (a + b)[..k])) ensures GuardOf(Apply(s, (a + b)[..k])) == g {
      if k <= |a| {
        assert (a + b)[..k] == a[..k];
      } else {
        assert (a + b)[..k] == a + b[..k - |a|];
        ApplyCat(s, a, b[..k - |a|]);
      }
    }
  }

  lemma AtomicKeeps(s: Region, ws: seq<Put>, before: Region, after: Region, g: Guard)
    requires Inside(ws) && Atomic(s, ws, before, after) && GuardOf(before) == GuardOf(after) == g
    ensures Throughout(s, ws, g)
  {
    hide GuardOf, Intact, Apply;
  }

  lemma EmptyIsGone()
    ensures GuardOf(Empty()) == GONE
  {
    hide Checksum;
    NoBits(F_HALT);
  }

  lemma RepairKeeps(s: Region)
    ensures Throughout(s, RepairWrites(s), GuardOf(s))
    ensures Intact(Repaired(s)) && GuardOf(Repaired(s)) == GuardOf(s)
  {
    hide Intact, Apply, Bit, WipeWrites;
    RepairedIsIntact(s);
    EmptyIsGone();
    var ws := RepairWrites(s);
    forall k | 0 <= k <= |ws| && Intact(Apply(s, ws[..k])) ensures GuardOf(Apply(s, ws[..k])) == GuardOf(s) {
      if Intact(s) {
        ApplyNone(s);
      } else {
        WipeIsAtomic(s, k);
      }
    }
  }

  lemma SameGuardIs(s: Region, r: Region)
    requires Intact(s) && Intact(r) && CrashLoop.SameGuard(s, r)
    ensures GuardOf(s) == GuardOf(r)
  {
    hide Intact, Bit;
  }

  lemma CountKeeps(s: Region, reason: Word)
    requires Intact(s)
    ensures Throughout(s, CountWrites(s, reason), GuardOf(s))
    ensures Intact(Apply(s, CountWrites(s, reason))) && GuardOf(Apply(s, CountWrites(s, reason))) == GuardOf(s)
  {
    hide Intact, Apply, GuardOf, SaturatingInc, Sealed, CrashLoop.SameGuard;
    var ps := [Put(W_BOOTS, SaturatingInc(s[W_BOOTS])), Put(W_PREV_RESET, reason)];
    CrashLoop.ShortUpdateKeepsGuard(s, ps);
    var r := Apply(s, CountWrites(s, reason));
    SameGuardIs(s, r);
    CountIsAtomic(s, reason);
    AtomicKeeps(s, CountWrites(s, reason), s, r, GuardOf(s));
  }

  lemma ClearKeeps(s: Region)
    requires Intact(s)
    ensures Throughout(s, ClearUploadWrites(s), GuardOf(s)) && Intact(Apply(s, ClearUploadWrites(s)))
  {
    hide Intact, Apply, GuardOf, UploadBit, Bit, Sealed, CrashLoop.SameGuard;
    ApplyNone(s);
    if Bit(s[W_FLAGS], F_IN_UPLOAD) {
      var ps := [Put(W_FLAGS, UploadBit(s[W_FLAGS], false))];
      CrashLoop.UploadBitKeepsHalt(s[W_FLAGS], false);
      CrashLoop.ShortUpdateKeepsGuard(s, ps);
      ShortKeeps(s, ps);
    }
  }

  /** A short update whose end has the same guard. */
  lemma ShortKeeps(s: Region, ps: seq<Put>)
    requires Intact(s) && Plain(ps) && |ps| <= 2
    requires Intact(Apply(s, Sealed(s, ps))) && CrashLoop.SameGuard(s, Apply(s, Sealed(s, ps)))
    ensures Throughout(s, Sealed(s, ps), GuardOf(s)) && GuardOf(Apply(s, Sealed(s, ps))) == GuardOf(s)
  {
    hide Intact, Apply, GuardOf, Checksum, CrashLoop.SameGuard;
    SameGuardIs(s, Apply(s, Sealed(s, ps)));
    forall k | 0 <= k <= |Sealed(s, ps)| && Intact(Apply(s, Sealed(s, ps)[..k]))
      ensures GuardOf(Apply(s, Sealed(s, ps)[..k])) == GuardOf(s)
    {
      ShortUpdateIsAtomic(s, ps, k);
    }
  }

  lemma BootKeeps(s: Region, reason: Word)
    ensures Throughout(s, BootWrites(s, reason), GuardOf(s)) && Intact(Apply(s, BootWrites(s, reason)))
  {
    hide Intact, Apply, GuardOf, RepairWrites, CountWrites, ClearUploadWrites, Throughout;
    RepairKeeps(s);
    var s1 := Repaired(s);
    CountKeeps(s1, reason);
    Both(s, RepairWrites(s), CountWrites(s1, reason), GuardOf(s));
    ClearKeeps(Apply(s1, CountWrites(s1, reason)));
    var s2 := Apply(s1, CountWrites(s1, reason));
    Both(s, RepairWrites(s) + CountWrites(s1, reason), ClearUploadWrites(s2), GuardOf(s));
  }

  lemma UploadKeeps(s: Region, busy: bool)
    ensures Throughout(s, UploadWrites(s, busy), GuardOf(s))
  {
    hide Intact, Apply, GuardOf, RepairWrites, UploadBit, Bit, Sealed, Throughout, CrashLoop.SameGuard;
    RepairKeeps(s);
    var s1 := Repaired(s);
    var next := UploadBit(s1[W_FLAGS], busy);
    if next != s1[W_FLAGS] {
      var ps := [Put(W_SECTOR, 0), Put(W_FLAGS, next)];
      CrashLoop.UploadBitKeepsHalt(s1[W_FLAGS], busy);
      CrashLoop.ShortUpdateKeepsGuard(s1, ps);
      ShortKeeps(s1, ps);
    } else {
      NoneKeeps(s1);
    }
    Both(s, RepairWrites(s), MarkUploadWrites(s1, busy), GuardOf(s));
  }

  lemma NoneKeeps(s: Region)
    ensures Throughout(s, [], GuardOf(s))
  {
    hide GuardOf, Intact;
    ApplyNone(s);
  }

  lemma SectorKeeps(s: Region, sectors: Word)
    ensures Throughout(s, SectorWrites(s, sectors), GuardOf(s))
  {
    hide Apply, GuardOf, Sealed, Throughout, Checksum, CrashLoop.SameGuard;
    if Intact(s) {
      CrashLoop.ShortUpdateKeepsGuard(s, [Put(W_SECTOR, sectors)]);
      ShortKeeps(s, [Put(W_SECTOR, sectors)]);
    } else {
      NoneKeeps(s);
    }
  }

  // -------------------------------------------------------------------------
  // Wherever a panic is cut
  // -------------------------------------------------------------------------

  lemma HeadCounts(s: Region, p: PanicInfo, k: nat)
    requires Intact(s) && Packed(p) && k <= 10
    ensures
      var r := Apply(s, Sealed(s, RecordBody(s, p))[..k]);
      Intact(r) ==> GuardOf(r) == Counted(GuardOf(s), p.uptime, k)
  {
    hide Apply, Intact, Checksum, PanicFlags, SaturatingInc, Bit;
    var all := Sealed(s, RecordBody(s, p));
    var ps := all[..k];
    var r := Apply(s, ps);
    CrashLoop.PanicFlagsHalt(s[W_FLAGS], NewRun(s, p.uptime));
    if k < 2 {
      ApplyKeeps(s, ps, W_RUN);
      ApplyKeeps(s, ps, W_FLAGS);
    } else if k < 9 {
      ApplySets(s, ps, 1);
      ApplyKeeps(s, ps, W_FLAGS);
    } else {
      ApplySets(s, ps, 1);
      ApplySets(s, ps, 8);
    }
  }

  lemma TailKeeps(s: Region, p: PanicInfo)
    requires Intact(s) && Packed(p)
    ensures Throughout(s, WhatWrites(s, p), GuardOf(s))
  {
    hide Apply, Intact, Bit, WhatChecksum, Has, OrZero;
    var ws := WhatWrites(s, p);
    forall k | 0 <= k <= |ws| && Intact(Apply(s, ws[..k])) ensures GuardOf(Apply(s, ws[..k])) == GuardOf(s) {
      TailKeepsHead(s, ws[..k]);
    }
  }

  /** What a panic cut after `cut` writes leaves: if the region is accepted, the guard with as many words of the
      record as were written; the wipe of a region that was not accepted comes before them. */
  lemma PanicCounts(s: Region, p: PanicInfo, cut: nat)
    requires Packed(p) && cut <= |PanicWrites(s, p)|
    ensures
      var r := Apply(s, PanicWrites(s, p)[..cut]);
      Intact(r) ==> GuardOf(r) == Counted(GuardOf(s), p.uptime, cut - |RepairWrites(s)|)
  {
    hide Apply, Intact, GuardOf, RepairWrites, WhatWrites, Sealed, RecordBody, Counted;
    var a, s1 := RepairWrites(s), Repaired(s);
    var b := Sealed(s1, RecordBody(s1, p));
    var s2 := Apply(s1, b);
    var c := WhatWrites(s2, p);
    assert |b| == 10 by { SealedLength(s1, p); }
    RepairKeeps(s);
    ApplyCat(s, a, b);
    var all := a + b + c;
    assert all == PanicWrites(s, p);
    var k := cut - |a|;
    if k <= 0 {
      assert all[..cut] == a[..cut];
      CountedNone(GuardOf(s), p.uptime, k);
    } else if k <= 10 {
      assert all[..cut] == a + b[..k];
      ApplyCat(s, a, b[..k]);
      HeadCounts(s1, p, k);
    } else {
      assert all[..cut] == a + b + c[..k - 10];
      ApplyCat(s, a + b, c[..k - 10]);
      assert b[..10] == b;
      HeadCounts(s1, p, 10);
      HeadIsIntact(s1, p);
      TailKeeps(s2, p);
      CountedAll(GuardOf(s), p.uptime, k);
    }
  }

  lemma SealedLength(s: Region, p: PanicInfo)
    requires Packed(p)
    ensures |Sealed(s, RecordBody(s, p))| == 10
  {
  }

  lemma HeadIsIntact(s: Region, p: PanicInfo)
    requires Intact(s) && Packed(p)
    ensures Intact(Apply(s, Sealed(s, RecordBody(s, p))))
  {
    CrashLoop.HeadMovesGuard(s, p);
  }

  lemma CountedNone(g: Guard, uptime: Word, k: int)
    requires k <= 0
    ensures Counted(g, uptime, k) == g
  {
  }

  lemma CountedAll(g: Guard, uptime: Word, k: int)
    requires k >= 10
    ensures Counted(g, uptime, k) == Counted(g, uptime, 10)
  {
  }

  // -------------------------------------------------------------------------
  // Whole runs
  // -------------------------------------------------------------------------

  /** The guard as a fold over the run: gone where a cut leaves a region that is not accepted, otherwise moved by the
      panics alone, as far as their records got. */
  function Folded(start: Region, es: seq<Event>): Guard
    requires WellFormedRun(es)
  {
    if es == [] then GuardOf(start)
    else
      var before, e := es[..|es| - 1], Last(es);
      var s, g := After(start, before), Folded(start, before);
      if !Intact(After(start, es)) then GONE
      else if e.op.Panic? then Counted(g, e.op.info.uptime, Written(s, e) - |RepairWrites(s)|)
      else g
  }

  /** How many of its writes an event makes. */
  function Written(s: Region, e: Event): nat
    requires WellFormed(e.op)
  {
    var n := |Writes(s, e.op)|;
    if e.cut < n then e.cut else n
  }

  lemma EventMoves(s: Region, e: Event)
    requires WellFormed(e.op)
    ensures
      var r := Apply(s, Cut(Writes(s, e.op), e.cut));
      GuardOf(r) ==
        if !Intact(r) then GONE
        else if e.op.Panic? then Counted(GuardOf(s), e.op.info.uptime, Written(s, e) - |RepairWrites(s)|)
        else GuardOf(s)
  {
    hide Apply, Intact, Counted, BootWrites, UploadWrites, SectorWrites, PanicWrites, RepairWrites;
    var ws, k := Writes(s, e.op), Written(s, e);
    assert Cut(ws, e.cut) == ws[..k];
    match e.op
    case Boot(reason) => BootKeeps(s, reason);
    case Upload(busy) => UploadKeeps(s, busy);
    case Sector(sectors) => SectorKeeps(s, sectors);
    case Panic(info) => PanicCounts(s, info, k);
  }

  /** In every run of boots, notes and panics, each cut after any word, from any region. */
  lemma {:induction false} GuardIsTheCutFold(start: Region, es: seq<Event>)
    requires WellFormedRun(es)
    ensures GuardOf(After(start, es)) == Folded(start, es)
  {
    hide Apply, Intact, Counted, Writes, Cut, GuardOf, RepairWrites, Written;
    if es != [] {
      var before := es[..|es| - 1];
      GuardIsTheCutFold(start, before);
      EventMoves(After(start, before), Last(es));
    }
  }

  // -------------------------------------------------------------------------
  // What it comes to
  // -------------------------------------------------------------------------

  /** A boot is told not to start, and a panic does not reset the chip, exactly when this guard is latched. */
  lemma GuardDecides(s: Region, reason: Word)
    ensures ReportOf(Apply(s, BootWrites(s, reason))).halt <==> GuardOf(s).latched
    ensures CrashLoop.WouldReset(s) <==> !GuardOf(s).latched
  {
    hide Apply, Intact, Bit, BootWrites, RepairWrites;
    RepairKeeps(s);
    BootKeeps(s, reason);
    var ws := BootWrites(s, reason);
    assert ws[..|ws|] == ws;
  }

  /** One panic, cut anywhere: the guard is gone exactly when some of the record's words but not its checksum were
      written and their changes do not cancel out; otherwise it has the panic as far as it got. */
  lemma CutPanicExactly(s: Region, p: PanicInfo, k: nat)
    requires Intact(s) && Packed(p) && k <= |PanicWrites(s, p)|
    ensures
      GuardOf(Apply(s, PanicWrites(s, p)[..k])) ==
        if k <= 9 && Delta(s, RecordBody(s, p)[..k]) != 0 then GONE else Counted(GuardOf(s), p.uptime, k)
  {
    hide Apply, Intact, WhatWrites, Delta, RecordBody, Counted, Bit;
    ApplyNone(s);
    assert RepairWrites(s) == [] && Repaired(s) == s;
    RecordBodyIsPlain(s, p);
    PanicCounts(s, p, k);
    var body, b := RecordBody(s, p), Sealed(s, RecordBody(s, p));
    var s2 := Apply(s, b);
    SealedLength(s, p);
    assert RecordWrites(s, p) == b;
    assert PanicWrites(s, p) == b + WhatWrites(s2, p);
    if k <= 9 {
      assert PanicWrites(s, p)[..k] == body[..k];
      RecordAcceptedExactlyWhen(s, p, k);
    } else {
      assert PanicWrites(s, p)[..k] == b + WhatWrites(s2, p)[..k - 10];
      ApplyCat(s, b, WhatWrites(s2, p)[..k - 10]);
      HeadIsIntact(s, p);
      TailStaysIntact(s2, p, k - 10);
    }
  }

  lemma TailStaysIntact(s: Region, p: PanicInfo, k: nat)
    requires Intact(s) && Packed(p) && k <= |WhatWrites(s, p)|
    ensures Intact(Apply(s, WhatWrites(s, p)[..k]))
  {
    hide Apply, Xor, WhatChecksum, Has, OrZero;
    var r := Apply(s, WhatWrites(s, p)[..k]);
    TailKeepsHead(s, WhatWrites(s, p)[..k]);
    assert r[..W_CHECK] == s[..W_CHECK];
  }

  /** So a panic cut after its first word forgets every one before it, the latch too. */
  lemma CutAfterOneWordForgets(s: Region, p: PanicInfo)
    requires Intact(s) && Packed(p) && s[W_PANICS] != 0xFFFF_FFFF
    ensures |PanicWrites(s, p)| > 1 && GuardOf(Apply(s, PanicWrites(s, p)[..1])) == GONE
  {
    hide Apply, Intact, WhatWrites, Checksum, PanicFlags, NewRun, GuardOf, Delta, SaturatingInc;
    CutPanicExactly(s, p, 1);
    var first := Put(W_PANICS, SaturatingInc(s[W_PANICS]));
    assert RecordBody(s, p)[..1] == [first];
    DeltaOfOne(s, first);
    Increases(s[W_PANICS]);
  }

  /** And the fifth quick panic since power-on, cut after its second word, is counted and does not latch: the next
      boot starts. */
  lemma FifthIsCountedAndNotLatched(s: Region, p: PanicInfo)
    requires Intact(s) && Packed(p) && p.uptime < 60_000 && s[W_PANICS] == s[W_RUN] == 4 && !Bit(s[W_FLAGS], F_HALT)
    ensures |PanicWrites(s, p)| > 2 && GuardOf(Apply(s, PanicWrites(s, p)[..2])) == Guard(5, false)
  {
    hide Apply, Intact, WhatWrites, Checksum, PanicFlags, NewRun, Delta, Bit;
    CutPanicExactly(s, p, 2);
    TwoCountsAreAccepted(s, p);
    RecordAcceptedExactlyWhen(s, p, 2);
  }

  /** No panic of the run gets as far as writing its flags. */
  predicate CutBeforeFlags(start: Region, es: seq<Event>)
    requires WellFormedRun(es)
  {
    es == [] ||
    var before, e := es[..|es| - 1], Last(es);
    var s := After(start, before);
    CutBeforeFlags(start, before) && (e.op.Panic? ==> Written(s, e) - |RepairWrites(s)| < 9)
  }

  /** The latch is set by a panic that gets that far, and by nothing else: without one every boot starts, however
      many quick panics there are. */
  lemma {:induction false} LatchedOnlyByAPanicThatFlags(start: Region, es: seq<Event>)
    requires WellFormedRun(es) && !GuardOf(start).latched && CutBeforeFlags(start, es)
    ensures !GuardOf(After(start, es)).latched
  {
    hide Apply, Intact, Writes, Cut, GuardOf, RepairWrites, After, Written;
    GuardIsTheCutFold(start, es);
    if es != [] {
      var before := es[..|es| - 1];
      LatchedOnlyByAPanicThatFlags(start, before);
      GuardIsTheCutFold(start, before);
    }
  }
}
