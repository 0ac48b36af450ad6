/** Whose message it is.

    A run of boots, upload notes and panics, each of them cut short by a reset after any number of its
    word writes. Whenever the words say there is a panic with a message, the message, the numbers, the
    file and the line were all written by one and the same panic. The proof never looks at a checksum:
    it is the order of the writes that does it. */
module BreadcrumbHonesty {
  import opened Common
  import opened Breadcrumb
  import opened BreadcrumbCrash
  import opened Words

  datatype Op =
    | Boot(reason: Word)
    | Upload(busy: bool)
    | Sector(sectors: Word)
    | Panic(info: PanicInfo)

  /** The operation, and how many of its writes were made before the chip was reset. */
  datatype Event = Event(op: Op, cut: nat)

  predicate WellFormed(op: Op) {
    op.Panic? ==> Packed(op.info)
  }

  function PanicWrites(s: Region, p: PanicInfo): (ps: seq<Put>)
    requires Packed(p)
    ensures Inside(ps)
  {
    RecordWrites(s, p) + WhatWrites(Apply(s, RecordWrites(s, p)), p)
  }

  function Writes(s: Region, op: Op): (ps: seq<Put>)
    requires WellFormed(op)
    ensures Inside(ps)
  {
    match op
    case Boot(reason) => BootWrites(s, reason)
    case Upload(busy) => UploadWrites(s, busy)
    case Sector(sectors) => SectorWrites(s, sectors)
    case Panic(info) => PanicWrites(s, info)
  }

  function Cut(ps: seq<Put>, k: nat): (r: seq<Put>)
    requires Inside(ps)
    ensures Inside(r)
  {
    if k < |ps| then ps[..k] else ps
  }

  predicate WellFormedRun(es: seq<Event>) {
    forall e :: e in es ==> WellFormed(e.op)
  }

  function After(start: Region, es: seq<Event>): Region
    requires WellFormedRun(es)
  {
    if es == [] then start
    else
      var s := After(start, es[..|es| - 1]);
      Apply(s, Cut(Writes(s, Last(es).op), Last(es).cut))
  }

  /** Every panic of the run so far, in order. */
  function Panics(es: seq<Event>): (r: seq<PanicInfo>)
    ensures |r| <= |es|
  {
    if es == [] then []
    else if Last(es).op.Panic? then Panics(es[..|es| - 1]) + [Last(es).op.info]
    else Panics(es[..|es| - 1])
  }

  // -------------------------------------------------------------------------
  // The invariant
  // -------------------------------------------------------------------------

  /** Everything the region says about the last panic is what `p` wrote. */
  predicate Shows(s: Region, p: PanicInfo)
    requires Packed(p)
  {
    && s[W_UPTIME] == p.uptime && s[W_LINE] == p.line && s[W_FILE..W_FILE + 3] == p.file
    && s[W_WHAT..W_WHAT_CHECK] == p.what
    && s[W_PC] == OrZero(p.pc) && s[W_ADDR] == OrZero(p.addr) && s[W_WHAT_HAS] == Has(p)
  }

  /** The tail is not for the last panic that was counted. */
  predicate Behind(s: Region, n: nat) {
    Nat(s[W_WHAT_FOR]) < Nat(s[W_PANICS]) <= n
  }

  predicate OneOf(s: Region, log: seq<PanicInfo>) {
    exists i :: 0 <= i < |log| && Packed(log[i]) && Shows(s, log[i])
  }

  predicate Honest(s: Region, log: seq<PanicInfo>) {
    s[W_MAGIC] == MAGIC ==>
      && Nat(s[W_WHAT_FOR]) <= Nat(s[W_PANICS]) <= |log|
      && (Bit(s[W_FLAGS], F_PANIC) ==> s[W_PANICS] != 0)
      && (s[W_WHAT_FOR] == s[W_PANICS] != 0 ==> OneOf(s, log))
  }

  /** At whatever write the chip is reset. */
  ghost predicate HonestThroughout(s: Region, ws: seq<Put>, log: seq<PanicInfo>)
    requires Inside(ws)
  {
    forall k :: 0 <= k <= |ws| ==> Honest(Apply(s, ws[..k]), log)
  }

  lemma {:induction false} ThroughoutBoth(s: Region, a: seq<Put>, b: seq<Put>, log: seq<PanicInfo>)
    requires Inside(a) && Inside(b) && HonestThroughout(s, a, log) && HonestThroughout(Apply(s, a), b, log)
    ensures Inside(a + b) && HonestThroughout(s, a + b, log) && Apply(s, a + b) == Apply(Apply(s, a), b)
  {
    hide Honest, Apply;
    ApplyCat(s, a, b);
    forall k | 0 <= k <= |a + b| ensures Honest(Apply(s, (a + b)[..k]), log) {
      if k <= |a| {
        assert (a + b)[..k] == a[..k];
      } else {
        assert (a + b)[..k] == a + b[..k - |a|];
        ApplyCat(s, a, b[..k - |a|]);
      }
    }
  }

  lemma ThroughoutNone(s: Region, log: seq<PanicInfo>)
    requires Honest(s, log)
    ensures HonestThroughout(s, [], log)
  {
    hide Honest;
    ApplyNone(s);
  }

  lemma NatInc(w: Word)
    ensures Nat(w) < 0xFFFF_FFFF ==> Nat(SaturatingInc(w)) == Nat(w) + 1
  {
    hide Nat;
    NatLast();
    NatMore(w);
  }

  lemma NatZero(a: Word)
    ensures Nat(a) == 0 <==> a == 0
  {
  }

  lemma BehindIsHonest(s: Region, log: seq<PanicInfo>)
    requires Behind(s, |log|)
    ensures Honest(s, log)
  {
    hide Nat, Bit;
    NatZero(s[W_PANICS]);
  }

  lemma MoreIsHonest(s: Region, log: seq<PanicInfo>, p: PanicInfo)
    requires Honest(s, log)
    ensures Honest(s, log + [p])
  {
    hide Nat, Bit, Shows;
    if s[W_MAGIC] == MAGIC && s[W_WHAT_FOR] == s[W_PANICS] != 0 {
      var i :| 0 <= i < |log| && Packed(log[i]) && Shows(s, log[i]);
      assert (log + [p])[i] == log[i];
    }
  }

  // -------------------------------------------------------------------------
  // What leaves the last panic alone
  // -------------------------------------------------------------------------

  /** Writes that touch nothing the report of a panic is made from, and raise no panic flag. */
  predicate Quiet(s: Region, ps: seq<Put>) {
    forall p :: p in ps ==>
      || p.at == W_BOOTS || p.at == W_PREV_RESET || p.at == W_SECTOR || p.at == W_CHECK
      || (p.at == W_FLAGS && (Bit(p.v, F_PANIC) ==> Bit(s[W_FLAGS], F_PANIC)))
  }

  lemma {:induction false} QuietKeepsFlag(s: Region, ps: seq<Put>)
    requires Inside(ps) && Quiet(s, ps)
    ensures Bit(Apply(s, ps)[W_FLAGS], F_PANIC) ==> Bit(s[W_FLAGS], F_PANIC)
  {
    hide Bit;
    if ps != [] {
      QuietKeepsFlag(s, ps[..|ps| - 1]);
      assert Last(ps) in ps;
    }
  }

  lemma QuietIsHonest(s: Region, ps: seq<Put>, log: seq<PanicInfo>)
    requires Inside(ps) && Quiet(s, ps) && Honest(s, log)
    ensures Honest(Apply(s, ps), log)
  {
    hide Nat, Bit, Apply;
    var r := Apply(s, ps);
    QuietKeepsFlag(s, ps);
    forall i: nat | i < WORDS && i != W_BOOTS && i != W_PREV_RESET && i != W_SECTOR && i != W_CHECK && i != W_FLAGS
      ensures r[i] == s[i]
    {
      ApplyKeeps(s, ps, i);
    }
    SameShown(s, r, log);
  }

  lemma SameShown(s: Region, r: Region, log: seq<PanicInfo>)
    requires forall i: nat ::
      i < WORDS && i != W_BOOTS && i != W_PREV_RESET && i != W_SECTOR && i != W_CHECK && i != W_FLAGS ==> r[i] == s[i]
    ensures OneOf(s, log) <==> OneOf(r, log)
  {
    hide Has, OrZero, Packed;
    assert s[W_FILE..W_FILE + 3] == r[W_FILE..W_FILE + 3];
    assert s[W_WHAT..W_WHAT_CHECK] == r[W_WHAT..W_WHAT_CHECK];
  }

  lemma QuietThroughout(s: Region, ps: seq<Put>, log: seq<PanicInfo>)
    requires Inside(ps) && Quiet(s, ps) && Honest(s, log)
    ensures HonestThroughout(s, ps, log)
  {
    hide Honest, Bit;
    forall k | 0 <= k <= |ps| ensures Honest(Apply(s, ps[..k]), log) {
      QuietIsHonest(s, ps[..k], log);
    }
  }

  lemma ZeroIsHonest(s: Region, log: seq<PanicInfo>)
    requires s[W_MAGIC] == MAGIC ==> s[W_PANICS] == 0 && s[W_WHAT_FOR] == 0 && s[W_FLAGS] == 0
    ensures Honest(s, log)
  {
    hide Nat, Bit;
    NoBits(F_PANIC);
    NatZero(s[W_PANICS]);
    NatZero(s[W_WHAT_FOR]);
  }

  lemma RepairThroughout(s: Region, log: seq<PanicInfo>)
    requires Honest(s, log)
    ensures HonestThroughout(s, RepairWrites(s), log) && Intact(Repaired(s)) && Honest(Repaired(s), log)
  {
    hide Honest, Apply, Checksum, Intact;
    RepairedIsIntact(s);
    if Intact(s) {
      ThroughoutNone(s, log);
      ApplyNone(s);
    } else {
      var ws := WipeWrites(s);
      assert RepairWrites(s) == ws;
      forall k | 0 <= k <= |ws| ensures Honest(Apply(s, ws[..k]), log) {
        WipeIsHonest(s, k, log);
      }
      assert ws[..|ws|] == ws;
    }
  }

  lemma WipeIsHonest(s: Region, k: nat, log: seq<PanicInfo>)
    requires Honest(s, log) && k <= |WipeWrites(s)|
    ensures Honest(Apply(s, WipeWrites(s)[..k]), log)
  {
    hide Honest, Apply, Checksum, Intact;
    var ws := WipeWrites(s);
    if k == 0 {
      assert ws[..k] == [];
      ApplyNone(s);
    } else if k <= WORDS {
      assert ws[..k] == Zeros(k);
      ZerosAt(s, k);
      ZeroIsHonest(Apply(s, Zeros(k)), log);
    } else if k == WORDS + 1 {
      assert ws[..k] == Zeros(WORDS) + [Put(W_MAGIC, MAGIC)];
      ZerosAt(s, WORDS);
      ApplyOne(s, Zeros(WORDS), Put(W_MAGIC, MAGIC));
      ZeroIsHonest(Apply(s, ws[..k]), log);
    } else {
      assert ws[..k] == ws;
      WipeLeavesEmpty(s);
      ZeroIsHonest(Empty(), log);
    }
  }

  lemma UploadBitIsQuiet(flags: Word, busy: bool)
    ensures Bit(UploadBit(flags, busy), F_PANIC) ==> Bit(flags, F_PANIC)
  {
  }

  lemma CountThroughout(s: Region, reason: Word, log: seq<PanicInfo>)
    requires Honest(s, log)
    ensures HonestThroughout(s, CountWrites(s, reason), log) && Honest(Apply(s, CountWrites(s, reason)), log)
  {
    hide Honest, Apply, Checksum, SaturatingInc, Bit;
    QuietThroughout(s, CountWrites(s, reason), log);
    QuietIsHonest(s, CountWrites(s, reason), log);
  }

  lemma ClearThroughout(s: Region, log: seq<PanicInfo>)
    requires Honest(s, log)
    ensures HonestThroughout(s, ClearUploadWrites(s), log)
  {
    hide Honest, Apply, Checksum, UploadBit, Bit;
    UploadBitIsQuiet(s[W_FLAGS], false);
    QuietThroughout(s, ClearUploadWrites(s), log);
  }

  lemma BootThroughout(s: Region, reason: Word, log: seq<PanicInfo>)
    requires Honest(s, log)
    ensures HonestThroughout(s, BootWrites(s, reason), log)
  {
    hide Honest, Apply, RepairWrites, CountWrites, ClearUploadWrites;
    RepairThroughout(s, log);
    var s1 := Repaired(s);
    CountThroughout(s1, reason, log);
    ThroughoutBoth(s, RepairWrites(s), CountWrites(s1, reason), log);
    var s2 := Apply(s1, CountWrites(s1, reason));
    ClearThroughout(s2, log);
    ThroughoutBoth(s, RepairWrites(s) + CountWrites(s1, reason), ClearUploadWrites(s2), log);
  }

  lemma UploadThroughout(s: Region, busy: bool, log: seq<PanicInfo>)
    requires Honest(s, log)
    ensures HonestThroughout(s, UploadWrites(s, busy), log)
  {
    hide Honest, Apply, RepairWrites, UploadBit, Checksum, Bit;
    RepairThroughout(s, log);
    var s1 := Repaired(s);
    UploadBitIsQuiet(s1[W_FLAGS], busy);
    QuietThroughout(s1, MarkUploadWrites(s1, busy), log);
    ThroughoutBoth(s, RepairWrites(s), MarkUploadWrites(s1, busy), log);
  }

  lemma SectorThroughout(s: Region, sectors: Word, log: seq<PanicInfo>)
    requires Honest(s, log)
    ensures HonestThroughout(s, SectorWrites(s, sectors), log)
  {
    hide Honest, Apply, Checksum, Bit;
    QuietThroughout(s, SectorWrites(s, sectors), log);
  }

  // -------------------------------------------------------------------------
  // A panic
  // -------------------------------------------------------------------------

  /** The one write to a word decides what is there afterwards. */
  lemma {:induction false} ApplySets(s: Region, ps: seq<Put>, i: nat)
    requires Inside(ps) && i < |ps| && forall j :: i < j < |ps| ==> ps[j].at != ps[i].at
    ensures Apply(s, ps)[ps[i].at] == ps[i].v
  {
    if i < |ps| - 1 {
      ApplySets(s, ps[..|ps| - 1], i);
    }
  }

  /** The first word `record` writes puts the count ahead of the tail, and nothing takes it back
      before the tail is complete. */
  lemma HeadIsBehind(s: Region, p: PanicInfo, k: nat, n: nat)
    requires Packed(p) && 0 < k <= 10
    requires Nat(s[W_WHAT_FOR]) <= Nat(s[W_PANICS]) < n <= 0xFFFF_FFFF
    ensures Behind(Apply(s, Sealed(s, RecordBody(s, p))[..k]), n)
  {
    hide Nat, Apply, Checksum, SaturatingInc, PanicFlags, NewRun;
    var ps := Sealed(s, RecordBody(s, p))[..k];
    assert ps[0] == Put(W_PANICS, SaturatingInc(s[W_PANICS]));
    ApplySets(s, ps, 0);
    ApplyKeeps(s, ps, W_WHAT_FOR);
    NatInc(s[W_PANICS]);
  }

  lemma HeadThroughout(s: Region, p: PanicInfo, log: seq<PanicInfo>)
    requires Packed(p) && Honest(s, log) && s[W_MAGIC] == MAGIC && |log| < 0xFFFF_FFFF
    ensures HonestThroughout(s, Sealed(s, RecordBody(s, p)), log + [p])
    ensures Behind(Apply(s, Sealed(s, RecordBody(s, p))), |log + [p]|)
  {
    hide Honest, Apply, RecordBody, Nat;
    assert Nat(s[W_WHAT_FOR]) <= Nat(s[W_PANICS]) <= |log| by {
      HonestCounts(s, log);
    }
    RecordBodyIsPlain(s, p);
    var ws := Sealed(s, RecordBody(s, p));
    forall k | 0 <= k <= |ws| ensures Honest(Apply(s, ws[..k]), log + [p]) {
      if k == 0 {
        assert ws[..k] == [];
        ApplyNone(s);
        MoreIsHonest(s, log, p);
      } else {
        HeadIsBehind(s, p, k, |log| + 1);
        BehindIsHonest(Apply(s, ws[..k]), log + [p]);
      }
    }
    HeadIsBehind(s, p, 10, |log| + 1);
    assert ws[..10] == ws;
  }

  lemma HonestCounts(s: Region, log: seq<PanicInfo>)
    requires Honest(s, log) && s[W_MAGIC] == MAGIC
    ensures Nat(s[W_WHAT_FOR]) <= Nat(s[W_PANICS]) <= |log|
  {
  }

  /** What `record` has written of the panic when it is done. */
  predicate ShowsPlace(s: Region, p: PanicInfo) {
    s[W_UPTIME] == p.uptime && s[W_LINE] == p.line && s[W_FILE..W_FILE + 3] == p.file
  }

  lemma HeadShowsPlace(s: Region, p: PanicInfo)
    requires Packed(p)
    ensures ShowsPlace(Apply(s, Sealed(s, RecordBody(s, p))), p)
  {
    hide Apply, Checksum, SaturatingInc, PanicFlags, NewRun;
    var ps := Sealed(s, RecordBody(s, p));
    var r := Apply(s, ps);
    ApplySets(s, ps, 2);
    ApplySets(s, ps, 4);
    ApplySets(s, ps, 5);
    ApplySets(s, ps, 6);
    ApplySets(s, ps, 7);
    assert r[W_FILE..W_FILE + 3] == p.file;
  }

  lemma TailIsBehind(s: Region, p: PanicInfo, k: nat, n: nat)
    requires Packed(p) && k <= WHAT_WORDS + 3 && Behind(s, n)
    ensures Behind(Apply(s, WhatWrites(s, p)[..k]), n)
  {
    hide Nat, Apply, WhatChecksum, Has, OrZero;
    var ps := WhatWrites(s, p)[..k];
    ApplyKeeps(s, ps, W_WHAT_FOR);
    ApplyKeeps(s, ps, W_PANICS);
  }

  /** Once the tail says whose it is, all of it is there. */
  lemma TailShows(s: Region, p: PanicInfo, k: nat)
    requires Packed(p) && WHAT_WORDS + 3 < k <= WHAT_WORDS + 5 && ShowsPlace(s, p)
    ensures
      var r := Apply(s, WhatWrites(s, p)[..k]);
      Shows(r, p) && r[W_WHAT_FOR] == s[W_PANICS] == r[W_PANICS]
  {
    hide Apply, WhatChecksum, Has, OrZero;
    var ps := WhatWrites(s, p)[..k];
    var r := Apply(s, ps);
    forall i | 0 <= i < WHAT_WORDS ensures r[W_WHAT + i] == p.what[i] {
      ApplySets(s, ps, i);
    }
    assert r[W_WHAT..W_WHAT_CHECK] == p.what;
    ApplySets(s, ps, WHAT_WORDS);
    ApplySets(s, ps, WHAT_WORDS + 1);
    ApplySets(s, ps, WHAT_WORDS + 2);
    ApplySets(s, ps, WHAT_WORDS + 3);
    TailKeepsHead(s, ps);
    assert r[W_FILE..W_FILE + 3] == s[W_FILE..W_FILE + 3];
  }

  lemma TailKeepsHead(s: Region, ps: seq<Put>)
    requires Inside(ps) && forall q :: q in ps ==> q.at > W_CHECK
    ensures forall i :: 0 <= i <= W_CHECK ==> Apply(s, ps)[i] == s[i]
  {
    forall i: nat | i <= W_CHECK ensures Apply(s, ps)[i] == s[i] {
      ApplyKeeps(s, ps, i);
    }
  }

  lemma ShowsIsHonest(s: Region, log: seq<PanicInfo>, p: PanicInfo)
    requires Packed(p) && Shows(s, p) && s[W_WHAT_FOR] == s[W_PANICS] != 0 && Nat(s[W_PANICS]) <= |log + [p]|
    ensures Honest(s, log + [p])
  {
    hide Nat, Bit, Shows;
    assert (log + [p])[|log|] == p;
  }

  lemma TailThroughout(s: Region, p: PanicInfo, log: seq<PanicInfo>)
    requires Packed(p) && Behind(s, |log + [p]|) && ShowsPlace(s, p)
    ensures HonestThroughout(s, WhatWrites(s, p), log + [p])
  {
    hide Honest, Apply, Nat, Shows, WhatChecksum;
    var ws := WhatWrites(s, p);
    NatZero(s[W_PANICS]);
    forall k | 0 <= k <= |ws| ensures Honest(Apply(s, ws[..k]), log + [p]) {
      if k <= WHAT_WORDS + 3 {
        TailIsBehind(s, p, k, |log + [p]|);
        BehindIsHonest(Apply(s, ws[..k]), log + [p]);
      } else {
        TailShows(s, p, k);
        ShowsIsHonest(Apply(s, ws[..k]), log, p);
      }
    }
  }

  lemma PanicThroughout(s: Region, p: PanicInfo, log: seq<PanicInfo>)
    requires Packed(p) && Honest(s, log) && |log| < 0xFFFF_FFFF
    ensures HonestThroughout(s, PanicWrites(s, p), log + [p])
  {
    hide Honest, Apply, RepairWrites, RecordBody, Sealed, WhatWrites, Behind, ShowsPlace;
    MoreIsHonest(s, log, p);
    RepairThroughout(s, log + [p]);
    RepairThroughout(s, log);
    var s1 := Repaired(s);
    var head := Sealed(s1, RecordBody(s1, p));
    HeadThroughout(s1, p, log);
    HeadShowsPlace(s1, p);
    ThroughoutBoth(s, RepairWrites(s), head, log + [p]);
    TailThroughout(Apply(s1, head), p, log);
    ThroughoutBoth(s, RecordWrites(s, p), WhatWrites(Apply(s1, head), p), log + [p]);
  }

  // -------------------------------------------------------------------------
  // Whole runs
  // -------------------------------------------------------------------------

  lemma StepIsHonest(s: Region, e: Event, log: seq<PanicInfo>)
    requires WellFormed(e.op) && Honest(s, log) && |log| < 0xFFFF_FFFF
    ensures
      Honest(Apply(s, Cut(Writes(s, e.op), e.cut)), if e.op.Panic? then log + [e.op.info] else log)
  {
    hide Honest, Apply, BootWrites, UploadWrites, SectorWrites, PanicWrites;
    var ws := Writes(s, e.op);
    assert ws[..|ws|] == ws;
    match e.op
    case Boot(reason) => BootThroughout(s, reason, log);
    case Upload(busy) => UploadThroughout(s, busy, log);
    case Sector(sectors) => SectorThroughout(s, sectors, log);
    case Panic(info) => PanicThroughout(s, info, log);
  }

  lemma {:induction false} RunIsHonest(start: Region, es: seq<Event>)
    requires WellFormedRun(es) && start[W_MAGIC] != MAGIC && |Panics(es)| <= 0xFFFF_FFFF
    ensures Honest(After(start, es), Panics(es))
  {
    hide Honest, Apply, Writes, Cut;
    if es == [] {
      ZeroIsHonest(start, []);
    } else {
      var before := es[..|es| - 1];
      RunIsHonest(start, before);
      if Last(es).op.Panic? || |Panics(before)| < 0xFFFF_FFFF {
        StepIsHonest(After(start, before), Last(es), Panics(before));
      } else {
        QuietStepIsHonest(After(start, before), Last(es), Panics(before));
      }
    }
  }

  lemma QuietStepIsHonest(s: Region, e: Event, log: seq<PanicInfo>)
    requires WellFormed(e.op) && !e.op.Panic? && Honest(s, log)
    ensures Honest(Apply(s, Cut(Writes(s, e.op), e.cut)), log)
  {
    hide Honest, Apply, BootWrites, UploadWrites, SectorWrites, PanicWrites;
    var ws := Writes(s, e.op);
    assert ws[..|ws|] == ws;
    match e.op
    case Boot(reason) => BootThroughout(s, reason, log);
    case Upload(busy) => UploadThroughout(s, busy, log);
    case Sector(sectors) => SectorThroughout(s, sectors, log);
  }

  /** For any run from a region that is not ours, with up to 2^32 - 1 panics in it and cut anywhere:
      if the report has a message, then one panic of the run wrote that message, both its numbers, and
      the file, line and uptime it is shown with. */
  lemma MessageAndPlaceAreOnePanics(start: Region, es: seq<Event>) returns (i: nat)
    requires WellFormedRun(es) && start[W_MAGIC] != MAGIC && |Panics(es)| <= 0xFFFF_FFFF
    requires
      var last := ReportOf(After(start, es)).last;
      last.Some? && last.value.what.Some?
    ensures i < |Panics(es)|
    ensures
      var last := ReportOf(After(start, es)).last.value;
      var p := Panics(es)[i];
      && last.what == Some(p.what) && last.pc == p.pc && last.addr == p.addr
      && last.file == p.file && last.line == p.line && last.uptime == p.uptime
  {
    hide Checksum, WhatChecksum, Bit, Nat, After, Has;
    RunIsHonest(start, es);
    var s := After(start, es);
    var log := Panics(es);
    assert OneOf(s, log);
    i :| 0 <= i < |log| && Packed(log[i]) && Shows(s, log[i]);
    HasSays(log[i]);
  }

  lemma HasSays(p: PanicInfo)
    ensures Bit(Has(p), H_PC) <==> p.pc.Some?
    ensures Bit(Has(p), H_ADDR) <==> p.addr.Some?
  {
  }

  /** The same from the words alone: the tail's checksum has no part in it. */
  lemma TailForThisCountIsThisPanics(start: Region, es: seq<Event>) returns (i: nat)
    requires WellFormedRun(es) && start[W_MAGIC] != MAGIC && |Panics(es)| <= 0xFFFF_FFFF
    requires
      var s := After(start, es);
      s[W_MAGIC] == MAGIC && Bit(s[W_FLAGS], F_PANIC) && s[W_WHAT_FOR] == s[W_PANICS]
    ensures i < |Panics(es)| && Packed(Panics(es)[i]) && Shows(After(start, es), Panics(es)[i])
  {
    hide Bit, Nat, After, Shows;
    RunIsHonest(start, es);
    var s := After(start, es);
    var log := Panics(es);
    assert OneOf(s, log);
    i :| 0 <= i < |log| && Packed(log[i]) && Shows(s, log[i]);
  }

  /** The count is what it rests on. Where it has stopped at 2^32 - 1, a panic cut off between its two
      halves is shown with the message of the one before. */
  lemma StuckCountMixesPanics(s: Region, p: PanicInfo)
    requires Packed(p) && Intact(s) && WhatIntact(s) && s[W_PANICS] == 0xFFFF_FFFF
    ensures
      var r := ReportOf(Apply(s, RecordWrites(s, p)));
      && r.last.Some? && r.last.value.line == p.line && r.last.value.file == p.file
      && r.last.value.what == Some(s[W_WHAT..W_WHAT_CHECK])
  {
    hide Apply, Checksum, RecordBody, Intact, Bit, WhatChecksum;
    ApplyNone(s);
    assert Repaired(s) == s;
    assert RecordWrites(s, p) == Sealed(s, RecordBody(s, p));
    HeadShowsPlace(s, p);
    HeadWhenStuck(s, p);
    var r := Apply(s, Sealed(s, RecordBody(s, p)));
    SameTail(s, r);
    assert r[W_WHAT..W_WHAT_CHECK] == s[W_WHAT..W_WHAT_CHECK];
  }

  lemma SameTail(s: Region, r: Region)
    requires forall i :: W_CHECK < i < WORDS ==> r[i] == s[i]
    ensures WhatChecksum(r) == WhatChecksum(s)
  {
    hide Xor;
    assert r[W_WHAT_FOR..W_WHAT_CHECK] == s[W_WHAT_FOR..W_WHAT_CHECK];
  }

  lemma HeadWhenStuck(s: Region, p: PanicInfo)
    requires Packed(p) && Intact(s) && s[W_PANICS] == 0xFFFF_FFFF
    ensures
      var r := Apply(s, Sealed(s, RecordBody(s, p)));
      && Intact(r) && r[W_PANICS] == s[W_PANICS] && Bit(r[W_FLAGS], F_PANIC)
      && forall i :: W_CHECK < i < WORDS ==> r[i] == s[i]
  {
    hide Apply, Checksum, Bit, NewRun, PanicFlags;
    var body := RecordBody(s, p);
    var ps := Sealed(s, body);
    ApplyKeeps(s, body, W_MAGIC);
    SealedIsIntact(s, body);
    ApplySets(s, ps, 0);
    ApplySets(s, ps, 8);
    PanicIsFlagged(s[W_FLAGS], NewRun(s, p.uptime));
    forall i: nat | W_CHECK < i < WORDS ensures Apply(s, ps)[i] == s[i] {
      ApplyKeeps(s, ps, i);
    }
  }

  lemma PanicIsFlagged(flags: Word, run: Word)
    ensures Bit(PanicFlags(flags, run), F_PANIC)
  {
  }
}
