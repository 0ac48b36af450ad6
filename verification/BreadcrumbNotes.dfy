/** What the next boot is told about an upload and about the boot before it, after any run of boots, upload notes and
    panics that all finish; and what an intact region and a wiped one are, word by word. */
module BreadcrumbNotes {
  import opened Common
  import opened Breadcrumb
  import opened BreadcrumbCrash
  import opened BreadcrumbHonesty
  import opened Words
  import CrashLoop

  // -------------------------------------------------------------------------
  // The two checksums
  // -------------------------------------------------------------------------

  lemma {:induction false} SaltComesOut(salt: Word, s: seq<Word>)
    ensures Xor(salt, s) == Flip(salt, Xor(0, s))
  {
    hide Flip;
    if s != [] {
      SaltComesOut(salt, s[..|s| - 1]);
      FlipTogether(salt, Xor(0, s[..|s| - 1]), Last(s));
    } else {
      FlipNothing(salt);
    }
  }

  lemma ClosesToTheSalt(x: Word, salt: Word, c: Word)
    ensures c == Flip(salt, x) <==> Flip(x, c) == salt
  {
    assert x ^ (salt ^ x) == salt;
    assert salt ^ x == c <==> x ^ c == salt;
  }

  lemma Closed(salt: Word, s: Region, lo: nat, hi: nat)
    requires lo <= hi < WORDS
    ensures s[hi] == Xor(salt, s[lo..hi]) <==> Xor(0, s[lo..hi + 1]) == salt
  {
    hide Xor, Flip;
    XorNext(0, s, lo, hi);
    SaltComesOut(salt, s[lo..hi]);
    ClosesToTheSalt(Xor(0, s[lo..hi]), salt, s[hi]);
  }

  /** The record is one of ours exactly when its first word says so and its fourteen words together are the salt; the
      message is that of the last panic exactly when its seventeen are theirs and its first is the count of panics. */
  lemma IntactExactly(s: Region)
    ensures |s| == 31
    ensures Intact(s) <==> s[0] == 0x5343_4202 && Xor(0, s[..14]) == 0x9e37_79b9
    ensures WhatIntact(s) <==> s[14] == s[2] && Xor(0, s[14..]) == 0x85eb_ca6b
  {
    hide Xor;
    Closed(0x9e37_79b9, s, 0, 13);
    Closed(0x85eb_ca6b, s, 14, 30);
    assert s[0..13] == s[..13] && s[0..14] == s[..14] && s[14..31] == s[14..];
  }

  /** Whatever was there, a wipe leaves the first word and the checksum, and nothing else. */
  lemma WipedExactly(s: Region)
    ensures
      var r := Apply(s, WipeWrites(s));
      r[0] == 0x5343_4202 && r[13] == 0x9e37_79b9 ^ 0x5343_4202 && forall i :: 0 <= i < 31 && i != 0 && i != 13 ==> r[i] == 0
  {
    hide Apply, WipeWrites;
    WipeLeavesEmpty(s);
  }

  // -------------------------------------------------------------------------
  // One operation
  // -------------------------------------------------------------------------

  /** The three words a reset is explained by: whether an upload was under way, how far it was, and what the boot
      itself began with. */
  predicate Notes(s: Region, busy: bool, sectors: Word, reason: Word) {
    (Marked(s[10]) <==> busy) && s[12] == sectors && s[11] == reason
  }

  predicate Marked(flags: Word) {
    flags & 0x8 != 0
  }

  predicate SameNotes(s: Region, r: Region) {
    (Marked(s[10]) <==> Marked(r[10])) && s[12] == r[12] && s[11] == r[11]
  }

  lemma RepairKeepsNotes(s: Region)
    requires CrashLoop.Sound(s)
    ensures Intact(Repaired(s)) && Repaired(s)[10] == s[10] && Repaired(s)[11] == s[11] && Repaired(s)[12] == s[12]
  {
    hide Checksum, Repaired;
    RepairedIsIntact(s);
  }

  lemma UploadBitExactly(flags: Word, busy: bool)
    ensures Marked(UploadBit(flags, busy)) <==> busy
    ensures UploadBit(flags, busy) == flags <==> (Marked(flags) <==> busy)
    ensures Bit(flags, F_IN_UPLOAD) <==> Marked(flags)
  {
  }

  lemma PanicFlagsKeepUpload(flags: Word, run: Word)
    ensures Marked(PanicFlags(flags, run)) <==> Marked(flags)
  {
  }

  lemma CountNotes(s: Region, reason: Word)
    ensures
      var r := Apply(s, CountWrites(s, reason));
      r[11] == reason && r[12] == s[12]
  {
    hide Apply, SaturatingInc, Checksum;
    ApplySets(s, CountWrites(s, reason), 1);
    ApplyKeeps(s, CountWrites(s, reason), 12);
  }

  lemma ClearNotes(s: Region)
    ensures Notes(Apply(s, ClearUploadWrites(s)), false, s[12], s[11])
  {
    hide Apply, UploadBit, Checksum, Bit, Marked;
    var clear := ClearUploadWrites(s);
    UploadBitExactly(s[10], false);
    ApplyKeeps(s, clear, 11);
    ApplyKeeps(s, clear, 12);
    if clear == [] {
      ApplyNone(s);
    } else {
      ApplySets(s, clear, 0);
    }
  }

  lemma BootNotes(s: Region, reason: Word)
    requires CrashLoop.Sound(s)
    ensures Notes(Apply(s, BootWrites(s, reason)), false, s[12], reason)
  {
    hide Intact, Apply, RepairWrites, CountWrites, ClearUploadWrites, Marked;
    RepairKeepsNotes(s);
    var s1 := Repaired(s);
    var count := CountWrites(s1, reason);
    var s2 := Apply(s1, count);
    ApplyCat(s, RepairWrites(s), count);
    ApplyCat(s, RepairWrites(s) + count, ClearUploadWrites(s2));
    CountNotes(s1, reason);
    ClearNotes(s2);
  }

  lemma MarkNotes(s: Region, busy: bool)
    ensures Notes(Apply(s, MarkUploadWrites(s, busy)), busy, if busy == Marked(s[10]) then s[12] else 0, s[11])
  {
    hide Apply, UploadBit, Checksum, Marked;
    var mark := MarkUploadWrites(s, busy);
    UploadBitExactly(s[10], busy);
    ApplyKeeps(s, mark, 11);
    if mark == [] {
      ApplyNone(s);
    } else {
      ApplySets(s, mark, 0);
      ApplySets(s, mark, 1);
    }
  }

  lemma UploadNotes(s: Region, busy: bool)
    requires CrashLoop.Sound(s)
    ensures Notes(Apply(s, UploadWrites(s, busy)), busy, if busy == Marked(s[10]) then s[12] else 0, s[11])
  {
    hide Intact, Apply, RepairWrites, MarkUploadWrites, Marked;
    RepairKeepsNotes(s);
    var s1 := Repaired(s);
    ApplyCat(s, RepairWrites(s), MarkUploadWrites(s1, busy));
    MarkNotes(s1, busy);
  }

  lemma SectorNotes(s: Region, sectors: Word)
    ensures
      var r := Apply(s, SectorWrites(s, sectors));
      r[10] == s[10] && r[11] == s[11] && r[12] == if Intact(s) then sectors else s[12]
  {
    hide Intact, Apply, Checksum;
    var ws := SectorWrites(s, sectors);
    ApplyKeeps(s, ws, 10);
    ApplyKeeps(s, ws, 11);
    if ws == [] {
      ApplyNone(s);
    } else {
      ApplySets(s, ws, 0);
    }
  }

  lemma PanicKeepsNotes(s: Region, p: PanicInfo)
    requires CrashLoop.Sound(s) && Packed(p)
    ensures SameNotes(s, Apply(s, PanicWrites(s, p)))
  {
    hide Intact, Apply, RepairWrites, Sealed, RecordBody, WhatWrites, Marked;
    RepairKeepsNotes(s);
    var s1 := Repaired(s);
    var head := Sealed(s1, RecordBody(s1, p));
    var s2 := Apply(s1, head);
    ApplyCat(s, RepairWrites(s), head);
    ApplyCat(s, RecordWrites(s, p), WhatWrites(s2, p));
    HeadKeepsNotes(s1, p);
    TailKeepsNotes(s2, p);
  }

  lemma HeadKeepsNotes(s: Region, p: PanicInfo)
    requires Packed(p)
    ensures SameNotes(s, Apply(s, Sealed(s, RecordBody(s, p))))
  {
    hide Apply, Checksum, SaturatingInc, NewRun, PanicFlags, Marked;
    var head := Sealed(s, RecordBody(s, p));
    ApplyKeeps(s, head, 11);
    ApplyKeeps(s, head, 12);
    ApplySets(s, head, 8);
    PanicFlagsKeepUpload(s[10], NewRun(s, p.uptime));
  }

  lemma TailKeepsNotes(s: Region, p: PanicInfo)
    requires Packed(p)
    ensures SameNotes(s, Apply(s, WhatWrites(s, p)))
  {
    hide Apply, WhatChecksum, Has, OrZero, Marked;
    TailKeepsHead(s, WhatWrites(s, p));
  }

  // -------------------------------------------------------------------------
  // Whole runs
  // -------------------------------------------------------------------------

  /** The last to say so was an upload that began. */
  predicate Uploading(ops: seq<Op>) {
    ops != [] && match Last(ops)
      case Boot(_) => false
      case Upload(busy) => busy
      case _ => Uploading(ops[..|ops| - 1])
  }

  /** Something has been written since power-on: a count of sectors alone is not. */
  predicate Begun(ops: seq<Op>) {
    exists op :: op in ops && !op.Sector?
  }

  /** The last count of sectors since an upload last began or ended. */
  function Sectors(ops: seq<Op>): Word {
    if ops == [] then 0 as Word
    else
      var before := ops[..|ops| - 1];
      match Last(ops)
      case Upload(busy) => if busy == Uploading(before) then Sectors(before) else 0
      case Sector(sectors) => if Begun(before) then sectors else Sectors(before)
      case _ => Sectors(before)
  }

  /** What the last boot began with. */
  function Reason(ops: seq<Op>): Word {
    if ops == [] then 0
    else if Last(ops).Boot? then Last(ops).reason
    else Reason(ops[..|ops| - 1])
  }

  lemma NothingIsNoted()
    ensures Notes(Blank(), Uploading([]), Sectors([]), Reason([])) && !Intact(Blank())
  {
    NoBits(0x8);
  }

  lemma Stepped(s: Region, before: seq<Op>, op: Op)
    requires CrashLoop.Sound(s) && WellFormed(op)
    requires Notes(s, Uploading(before), Sectors(before), Reason(before)) && (Intact(s) <==> Begun(before))
    ensures
      var r, ops := Apply(s, Writes(s, op)), before + [op];
      Notes(r, Uploading(ops), Sectors(ops), Reason(ops)) && (Intact(r) <==> Begun(ops))
  {
    hide Apply, Intact, BootWrites, UploadWrites, SectorWrites, PanicWrites, Marked, Begun, CrashLoop.Sound;
    assert (before + [op])[..|before + [op]| - 1] == before;
    BegunGrows(before, op);
    match op
    case Boot(reason) =>
      BootNotes(s, reason);
      CrashLoop.BootKeepsGuard(s, reason);
    case Upload(busy) =>
      UploadNotes(s, busy);
      CrashLoop.UploadKeepsGuard(s, busy);
    case Sector(sectors) =>
      SectorNotes(s, sectors);
      SectorIntact(s, sectors);
    case Panic(info) =>
      PanicKeepsNotes(s, info);
      CrashLoop.PanicMovesGuard(s, info);
  }

  lemma BegunGrows(before: seq<Op>, op: Op)
    ensures Begun(before + [op]) <==> Begun(before) || !op.Sector?
  {
    assert op in before + [op];
    if Begun(before) {
      var o :| o in before && !o.Sector?;
      assert o in before + [op];
    }
  }

  /** In every run since power-on the next boot finds the mark of an upload exactly when the last boot or note of an
      upload was one that began; with it the sectors noted since, and the reason of the boot before. */
  lemma {:induction false} NotesAreOfTheRun(ops: seq<Op>)
    requires CrashLoop.WellFormedOps(ops)
    ensures Notes(CrashLoop.Region(ops), Uploading(ops), Sectors(ops), Reason(ops))
    ensures Intact(CrashLoop.Region(ops)) <==> Begun(ops)
  {
    hide Apply, Intact, Notes, Writes, Uploading, Sectors, Reason;
    if ops == [] {
      NothingIsNoted();
    } else {
      var before, op := ops[..|ops| - 1], Last(ops);
      NotesAreOfTheRun(before);
      CrashLoop.GuardIsTheFold(before);
      assert WellFormed(op) && before + [op] == ops;
      Stepped(CrashLoop.Region(before), before, op);
    }
  }

  lemma SectorIntact(s: Region, sectors: Word)
    requires CrashLoop.Sound(s)
    ensures Intact(Apply(s, SectorWrites(s, sectors))) <==> Intact(s)
  {
    hide Apply, Intact, Sealed;
    if Intact(s) {
      ShortUpdateIsAtomic(s, [Put(W_SECTOR, sectors)], 0);
    } else {
      ApplyNone(s);
    }
  }
}
