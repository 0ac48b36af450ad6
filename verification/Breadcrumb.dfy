/** The breadcrumb: 31 words of memory that survive every reset but a power-on.

    Words 0 to 13 are the record, the last of them its checksum; words 14 to 30 are the tail, what
    the panic said, with a checksum of its own. Every update is a list of word writes, and a reset
    may land after any prefix of it. The functions give those lists; the class makes them. */
module Breadcrumb {
  import opened Common
  import opened Words

  const MAGIC: Word := 0x5343_4202
  const CHECK_SALT: Word := 0x9e37_79b9
  const WHAT_SALT: Word := 0x85eb_ca6b

  const F_PANIC: Word := 0x1
  const F_HALT: Word := 0x2
  const F_IN_UPLOAD: Word := 0x8

  const CRASH_LOOP_MAX: Word := 5
  const QUICK_MS: Word := 60_000

  const W_MAGIC: nat := 0
  const W_BOOTS: nat := 1
  const W_PANICS: nat := 2
  const W_RUN: nat := 3
  const W_UPTIME: nat := 4
  const W_LINE: nat := 5
  const W_FILE: nat := 6
  const W_PANIC_BOOT: nat := 9
  const W_FLAGS: nat := 10
  const W_PREV_RESET: nat := 11
  const W_SECTOR: nat := 12
  const W_CHECK: nat := 13
  const W_WHAT_FOR: nat := 14
  const W_PC: nat := 15
  const W_ADDR: nat := 16
  const W_WHAT_HAS: nat := 17
  const W_WHAT: nat := 18
  const WHAT_WORDS: nat := 12
  const W_WHAT_CHECK: nat := 30
  const WORDS: nat := 31

  const H_PC: Word := 0x1
  const H_ADDR: Word := 0x2

  /** The region's contents. */
  type Region = s: seq<Word> | |s| == WORDS witness seq(WORDS, _ => 0)

  function Blank(): Region {
    seq(WORDS, _ => 0)
  }

  // -------------------------------------------------------------------------
  // Checksums
  // -------------------------------------------------------------------------

  function Flip(a: Word, b: Word): Word {
    a ^ b
  }

  /** The salt and all of these words, one after the other. */
  function Xor(salt: Word, s: seq<Word>): Word {
    if s == [] then salt else Flip(Xor(salt, s[..|s| - 1]), Last(s))
  }

  function Checksum(s: Region): Word {
    Xor(CHECK_SALT, s[..W_CHECK])
  }

  function WhatChecksum(s: Region): Word {
    Xor(WHAT_SALT, s[W_WHAT_FOR..W_WHAT_CHECK])
  }

  predicate Intact(s: Region) {
    s[W_MAGIC] == MAGIC && s[W_CHECK] == Checksum(s)
  }

  predicate WhatIntact(s: Region) {
    s[W_WHAT_CHECK] == WhatChecksum(s) && s[W_WHAT_FOR] == s[W_PANICS]
  }

  // -------------------------------------------------------------------------
  // Updates as lists of word writes
  // -------------------------------------------------------------------------

  datatype Put = Put(at: nat, v: Word)

  predicate Inside(ps: seq<Put>) {
    forall p :: p in ps ==> p.at < WORDS
  }

  /** The region after these writes. A reset after `k` of them leaves `Apply(s, ps[..k])`. */
  function Apply(s: Region, ps: seq<Put>): Region
    requires Inside(ps)
  {
    if ps == [] then s else Apply(s, ps[..|ps| - 1])[Last(ps).at := Last(ps).v]
  }

  /** Some writes, and then the checksum of what they leave. */
  function Sealed(s: Region, ps: seq<Put>): (r: seq<Put>)
    requires Inside(ps)
    ensures Inside(r)
  {
    ps + [Put(W_CHECK, Checksum(Apply(s, ps)))]
  }

  function Zeros(n: nat): (ps: seq<Put>)
    requires n <= WORDS
    ensures |ps| == n && Inside(ps)
  {
    seq(n, i requires 0 <= i < n => Put(i, 0))
  }

  function WipeWrites(s: Region): (ps: seq<Put>)
    ensures Inside(ps)
  {
    Sealed(s, Zeros(WORDS) + [Put(W_MAGIC, MAGIC)])
  }

  /** What an update that starts with `if !intact() { wipe(); }` writes first. */
  function RepairWrites(s: Region): (ps: seq<Put>)
    ensures Inside(ps)
  {
    if Intact(s) then [] else WipeWrites(s)
  }

  function Repaired(s: Region): Region {
    Apply(s, RepairWrites(s))
  }

  function SaturatingInc(w: Word): Word {
    if w == 0xFFFF_FFFF then w else w + 1
  }

  /** `boot`'s count of this boot. */
  function CountWrites(s: Region, reason: Word): (ps: seq<Put>)
    ensures Inside(ps)
  {
    Sealed(s, [Put(W_BOOTS, SaturatingInc(s[W_BOOTS])), Put(W_PREV_RESET, reason)])
  }

  function UploadBit(flags: Word, busy: bool): Word {
    if busy then flags | F_IN_UPLOAD else flags & !F_IN_UPLOAD
  }

  predicate Bit(flags: Word, bit: Word) {
    flags & bit != 0
  }

  /** `boot`'s clearing of the upload bit. */
  function ClearUploadWrites(s: Region): (ps: seq<Put>)
    ensures Inside(ps)
  {
    if Bit(s[W_FLAGS], F_IN_UPLOAD) then Sealed(s, [Put(W_FLAGS, UploadBit(s[W_FLAGS], false))]) else []
  }

  function BootWrites(s: Region, reason: Word): (ps: seq<Put>)
    ensures Inside(ps)
  {
    var s1 := Repaired(s);
    var s2 := Apply(s1, CountWrites(s1, reason));
    RepairWrites(s) + CountWrites(s1, reason) + ClearUploadWrites(s2)
  }

  /** `set_in_upload` on an intact region. */
  function MarkUploadWrites(s: Region, busy: bool): (ps: seq<Put>)
    ensures Inside(ps)
  {
    var next := UploadBit(s[W_FLAGS], busy);
    if next == s[W_FLAGS] then [] else Sealed(s, [Put(W_SECTOR, 0), Put(W_FLAGS, next)])
  }

  function UploadWrites(s: Region, busy: bool): (ps: seq<Put>)
    ensures Inside(ps)
  {
    RepairWrites(s) + MarkUploadWrites(Repaired(s), busy)
  }

  function SectorWrites(s: Region, sectors: Word): (ps: seq<Put>)
    ensures Inside(ps)
  {
    if Intact(s) then Sealed(s, [Put(W_SECTOR, sectors)]) else []
  }

  /** What one panic brings: where and when it happened, and what its message was found to say
      (its text and file name packed into words, four bytes each). */
  datatype PanicInfo = PanicInfo(
    uptime: Word, line: Word, file: seq<Word>, what: seq<Word>, pc: Option<Word>, addr: Option<Word>)

  predicate Packed(p: PanicInfo) {
    |p.file| == 3 && |p.what| == WHAT_WORDS
  }

  function NewRun(s: Region, uptime: Word): Word {
    if uptime < QUICK_MS then SaturatingInc(s[W_RUN]) else 1
  }

  function PanicFlags(flags: Word, run: Word): Word {
    if run >= CRASH_LOOP_MAX then flags | F_PANIC | F_HALT else flags | F_PANIC
  }

  /** `record` on an intact region, in the order it writes. */
  function RecordBody(s: Region, p: PanicInfo): (ps: seq<Put>)
    requires Packed(p)
    ensures Inside(ps)
  {
    [Put(W_PANICS, SaturatingInc(s[W_PANICS])), Put(W_RUN, NewRun(s, p.uptime)), Put(W_UPTIME, p.uptime),
     Put(W_PANIC_BOOT, s[W_BOOTS]), Put(W_LINE, p.line),
     Put(W_FILE, p.file[0]), Put(W_FILE + 1, p.file[1]), Put(W_FILE + 2, p.file[2]),
     Put(W_FLAGS, PanicFlags(s[W_FLAGS], NewRun(s, p.uptime)))]
  }

  function RecordWrites(s: Region, p: PanicInfo): (ps: seq<Put>)
    requires Packed(p)
    ensures Inside(ps)
  {
    var s1 := Repaired(s);
    RepairWrites(s) + Sealed(s1, RecordBody(s1, p))
  }

  function OrZero(w: Option<Word>): Word {
    if w.Some? then w.value else 0
  }

  function Has(p: PanicInfo): Word {
    (if p.pc.Some? then H_PC else 0) | (if p.addr.Some? then H_ADDR else 0)
  }

  function TextWrites(what: seq<Word>): (ps: seq<Put>)
    requires |what| <= WHAT_WORDS
    ensures |ps| == |what| && Inside(ps)
  {
    seq(|what|, i requires 0 <= i < |what| => Put(W_WHAT + i, what[i]))
  }

  /** `record_what`, up to and including the word that says which panic the tail is for. */
  function WhatBody(s: Region, p: PanicInfo): (ps: seq<Put>)
    requires Packed(p)
    ensures Inside(ps)
  {
    TextWrites(p.what)
    + [Put(W_PC, OrZero(p.pc)), Put(W_ADDR, OrZero(p.addr)), Put(W_WHAT_HAS, Has(p)), Put(W_WHAT_FOR, s[W_PANICS])]
  }

  function WhatWrites(s: Region, p: PanicInfo): (ps: seq<Put>)
    requires Packed(p)
    ensures Inside(ps)
  {
    WhatBody(s, p) + [Put(W_WHAT_CHECK, WhatChecksum(Apply(s, WhatBody(s, p))))]
  }

  // -------------------------------------------------------------------------
  // The report
  // -------------------------------------------------------------------------

  /** `what`, `pc` and `addr` are empty when the tail did not hold. */
  datatype LastPanic = LastPanic(
    uptime: Word, boot: Word, line: Word, consecutive: Word,
    file: seq<Word>, what: Option<seq<Word>>, pc: Option<Word>, addr: Option<Word>)

  datatype Report = Report(boots: Word, panics: Word, last: Option<LastPanic>, halt: bool)

  function ReportOf(s: Region): Report {
    if !Intact(s) then Report(0, 0, None, false)
    else
      var tail := WhatIntact(s);
      var has := s[W_WHAT_HAS];
      var last := LastPanic(
        s[W_UPTIME], s[W_PANIC_BOOT], s[W_LINE], s[W_RUN], s[W_FILE..W_FILE + 3],
        if tail then Some(s[W_WHAT..W_WHAT_CHECK]) else None,
        if tail && Bit(has, H_PC) then Some(s[W_PC]) else None,
        if tail && Bit(has, H_ADDR) then Some(s[W_ADDR]) else None);
      Report(s[W_BOOTS], s[W_PANICS],
             if Bit(s[W_FLAGS], F_PANIC) then Some(last) else None,
             Bit(s[W_FLAGS], F_HALT))
  }

  // -------------------------------------------------------------------------
  // Lists of writes
  // -------------------------------------------------------------------------

  lemma {:induction false} ApplyCat(s: Region, a: seq<Put>, b: seq<Put>)
    requires Inside(a) && Inside(b)
    ensures Inside(a + b) && Apply(s, a + b) == Apply(Apply(s, a), b)
    decreases |b|
  {
    if b == [] {
      assert a + b == a;
    } else {
      var shorter := b[..|b| - 1];
      ApplyCat(s, a, shorter);
      assert (a + b)[..|a + b| - 1] == a + shorter;
    }
  }

  lemma ApplyNone(s: Region)
    ensures Apply(s, []) == s
  {
  }

  lemma ApplyOne(s: Region, ps: seq<Put>, p: Put)
    requires Inside(ps) && p.at < WORDS
    ensures Inside(ps + [p]) && Apply(s, ps + [p]) == Apply(s, ps)[p.at := p.v]
  {
    assert (ps + [p])[..|ps + [p]| - 1] == ps;
  }

  // -------------------------------------------------------------------------
  // The code
  // -------------------------------------------------------------------------

  class Crumb {
    const words: array<Word>

    /** Every write made, in order: where a reset could have landed. */
    ghost var log: seq<Put>

    ghost predicate Valid()
      reads this
    {
      words.Length == WORDS
    }

    function Words(): Region
      requires words.Length == WORDS
      reads words
    {
      words[..]
    }

    constructor ()
      ensures Valid() && Words() == Blank() && log == [] && fresh(words)
    {
      words := new Word[WORDS](_ => 0);
      log := [];
    }

    method PutWord(i: nat, v: Word)
      requires Valid() && i < WORDS
      modifies this`log, words
      ensures Words() == old(Words())[i := v] && log == old(log) + [Put(i, v)]
    {
      words[i] := v;
      log := log + [Put(i, v)];
    }

    method ReadChecksum() returns (x: Word)
      requires Valid()
      ensures x == Checksum(Words())
    {
      hide Xor;
      x := CHECK_SALT;
      XorNone(CHECK_SALT);
      ghost var s := Words();
      assert s[..0] == [];
      for i := 0 to W_CHECK
        invariant x == Xor(CHECK_SALT, s[..i])
      {
        XorNext(CHECK_SALT, s, 0, i);
        x := x ^ words[i];
      }
    }

    method ReadWhatChecksum() returns (x: Word)
      requires Valid()
      ensures x == WhatChecksum(Words())
    {
      hide Xor;
      x := WHAT_SALT;
      XorNone(WHAT_SALT);
      ghost var s := Words();
      assert s[W_WHAT_FOR..W_WHAT_FOR] == [];
      for i := W_WHAT_FOR to W_WHAT_CHECK
        invariant x == Xor(WHAT_SALT, s[W_WHAT_FOR..i])
      {
        XorNext(WHAT_SALT, s, W_WHAT_FOR, i);
        x := x ^ words[i];
      }
    }

    /** One more write of an update that began at `s` and has made the writes `ps` so far. */
    method Write(ghost s: Region, ghost ps: seq<Put>, i: nat, v: Word)
      requires Valid() && i < WORDS && Inside(ps) && Words() == Apply(s, ps)
      modifies this`log, words
      ensures Inside(ps + [Put(i, v)]) && Words() == Apply(s, ps + [Put(i, v)]) == old(Words())[i := v]
      ensures log == old(log) + [Put(i, v)]
    {
      ApplyOne(s, ps, Put(i, v));
      PutWord(i, v);
    }

    method Seal(ghost s: Region, ghost ps: seq<Put>)
      requires Valid() && Inside(ps) && Words() == Apply(s, ps)
      modifies this`log, words
      ensures Words() == Apply(s, Sealed(s, ps)) && log == old(log) + [Last(Sealed(s, ps))]
    {
      var c := ReadChecksum();
      Write(s, ps, W_CHECK, c);
    }

    method IsIntact() returns (ok: bool)
      requires Valid()
      ensures ok <==> Intact(Words())
    {
      var c := ReadChecksum();
      ok := words[W_MAGIC] == MAGIC && words[W_CHECK] == c;
    }

    method Wipe()
      requires Valid()
      modifies this`log, words
      ensures Words() == Apply(old(Words()), WipeWrites(old(Words())))
      ensures log == old(log) + WipeWrites(old(Words()))
    {
      ghost var s := Words();
      for i := 0 to WORDS
        invariant Words() == Apply(s, Zeros(i)) && log == old(log) + Zeros(i)
      {
        assert Zeros(i) + [Put(i, 0)] == Zeros(i + 1);
        Write(s, Zeros(i), i, 0);
      }
      Write(s, Zeros(WORDS), W_MAGIC, MAGIC);
      Seal(s, Zeros(WORDS) + [Put(W_MAGIC, MAGIC)]);
    }

    method Repair()
      requires Valid()
      modifies this`log, words
      ensures Words() == Repaired(old(Words())) && log == old(log) + RepairWrites(old(Words()))
    {
      var ok := IsIntact();
      if !ok {
        Wipe();
      }
    }

    method CountBoot(reason: Word)
      requires Valid()
      modifies this`log, words
      ensures Words() == Apply(old(Words()), CountWrites(old(Words()), reason))
      ensures log == old(log) + CountWrites(old(Words()), reason)
    {
      hide Apply, Checksum;
      ghost var s := Words();
      ghost var none: seq<Put> := [];
      ApplyNone(s);
      Write(s, none, W_BOOTS, SaturatingInc(words[W_BOOTS]));
      Write(s, none + [Put(W_BOOTS, SaturatingInc(s[W_BOOTS]))], W_PREV_RESET, reason);
      ghost var both := [Put(W_BOOTS, SaturatingInc(s[W_BOOTS])), Put(W_PREV_RESET, reason)];
      assert both == none + [Put(W_BOOTS, SaturatingInc(s[W_BOOTS]))] + [Put(W_PREV_RESET, reason)];
      Seal(s, both);
    }

    method ClearUpload()
      requires Valid()
      modifies this`log, words
      ensures Words() == Apply(old(Words()), ClearUploadWrites(old(Words())))
      ensures log == old(log) + ClearUploadWrites(old(Words()))
    {
      hide Apply, Checksum, Bit, UploadBit;
      ghost var s := Words();
      ghost var none: seq<Put> := [];
      ApplyNone(s);
      var flags := words[W_FLAGS];
      if Bit(flags, F_IN_UPLOAD) {
        ghost var one := Put(W_FLAGS, UploadBit(flags, false));
        assert none + [one] == [one];
        Write(s, none, W_FLAGS, UploadBit(flags, false));
        Seal(s, [one]);
      }
    }

    /** Counts this boot; answers whether the crash-loop guard has latched. */
    method Boot(reason: Word) returns (halt: bool)
      requires Valid()
      modifies this`log, words
      ensures Words() == Apply(old(Words()), BootWrites(old(Words()), reason))
      ensures log == old(log) + BootWrites(old(Words()), reason)
      ensures
        var s1 := Repaired(old(Words()));
        halt == ReportOf(Apply(s1, CountWrites(s1, reason))).halt
    {
      hide Apply, Checksum, ReportOf, RepairWrites, CountWrites, ClearUploadWrites;
      ghost var s := Words();
      Repair();
      ghost var s1 := Words();
      CountBoot(reason);
      ghost var s2 := Words();
      var r := ReadReport();
      ClearUpload();
      ApplyCat(s, RepairWrites(s), CountWrites(s1, reason));
      ApplyCat(s, RepairWrites(s) + CountWrites(s1, reason), ClearUploadWrites(s2));
      halt := r.halt;
    }

    method MarkUpload(busy: bool)
      requires Valid()
      modifies this`log, words
      ensures Words() == Apply(old(Words()), MarkUploadWrites(old(Words()), busy))
      ensures log == old(log) + MarkUploadWrites(old(Words()), busy)
    {
      hide Apply, Checksum;
      ghost var s := Words();
      ghost var none: seq<Put> := [];
      ApplyNone(s);
      var flags := words[W_FLAGS];
      var next := UploadBit(flags, busy);
      if next != flags {
        Write(s, none, W_SECTOR, 0);
        Write(s, none + [Put(W_SECTOR, 0)], W_FLAGS, next);
        assert [Put(W_SECTOR, 0), Put(W_FLAGS, next)] == none + [Put(W_SECTOR, 0)] + [Put(W_FLAGS, next)];
        Seal(s, [Put(W_SECTOR, 0), Put(W_FLAGS, next)]);
      }
    }

    method SetInUpload(busy: bool)
      requires Valid()
      modifies this`log, words
      ensures Words() == Apply(old(Words()), UploadWrites(old(Words()), busy))
      ensures log == old(log) + UploadWrites(old(Words()), busy)
    {
      hide Apply, RepairWrites, MarkUploadWrites;
      ghost var s := Words();
      Repair();
      ghost var s1 := Words();
      MarkUpload(busy);
      ApplyCat(s, RepairWrites(s), MarkUploadWrites(s1, busy));
    }

    method NoteUploadSector(sectors: Word)
      requires Valid()
      modifies this`log, words
      ensures Words() == Apply(old(Words()), SectorWrites(old(Words()), sectors))
      ensures log == old(log) + SectorWrites(old(Words()), sectors)
    {
      var ok := IsIntact();
      if !ok {
        return;
      }
      ghost var s := Words();
      ghost var none: seq<Put> := [];
      assert none + [Put(W_SECTOR, sectors)] == [Put(W_SECTOR, sectors)];
      Write(s, none, W_SECTOR, sectors);
      Seal(s, [Put(W_SECTOR, sectors)]);
    }

    static method NextFlags(was: Word, run: Word) returns (flags: Word)
      ensures flags == PanicFlags(was, run)
    {
      flags := was | F_PANIC;
      if run >= CRASH_LOOP_MAX {
        flags := flags | F_HALT;
      }
    }

    /** The counts, and where it happened up to its line. */
    method RecordNumbers(p: PanicInfo, run: Word)
      requires Valid() && Packed(p) && run == NewRun(Words(), p.uptime)
      modifies this`log, words
      ensures Words() == Apply(old(Words()), RecordBody(old(Words()), p)[..5])
      ensures log == old(log) + RecordBody(old(Words()), p)[..5]
      ensures words[W_FLAGS] == old(words[W_FLAGS])
    {
      hide Apply, SaturatingInc, PanicFlags, NewRun;
      ghost var s := Words();
      ghost var body := RecordBody(s, p);
      ghost var none: seq<Put> := [];
      ApplyNone(s);
      Write(s, none, W_PANICS, SaturatingInc(words[W_PANICS]));
      Write(s, none + [body[0]], W_RUN, run);
      Write(s, none + [body[0]] + [body[1]], W_UPTIME, p.uptime);
      Write(s, none + [body[0]] + [body[1]] + [body[2]], W_PANIC_BOOT, words[W_BOOTS]);
      Write(s, none + [body[0]] + [body[1]] + [body[2]] + [body[3]], W_LINE, p.line);
      assert none + [body[0]] + [body[1]] + [body[2]] + [body[3]] + [body[4]] == body[..5];
    }

    /** `record` once the region is known to be intact. */
    method RecordHead(p: PanicInfo) returns (latched: bool)
      requires Valid() && Packed(p)
      modifies this`log, words
      ensures
        var s := old(Words());
        && Words() == Apply(s, Sealed(s, RecordBody(s, p))) && log == old(log) + Sealed(s, RecordBody(s, p))
        && (latched <==> Bit(s[W_FLAGS], F_HALT))
    {
      hide Apply, Checksum, Bit, SaturatingInc, PanicFlags;
      ghost var s := Words();
      ghost var body := RecordBody(s, p);
      latched := Bit(words[W_FLAGS], F_HALT);
      var run := if p.uptime < QUICK_MS then SaturatingInc(words[W_RUN]) else 1;
      RecordNumbers(p, run);
      for w := 0 to 3
        invariant log == old(log) + body[..5 + w] && Words() == Apply(s, body[..5 + w])
        invariant words[W_FLAGS] == s[W_FLAGS]
      {
        assert body[..5 + w] + [Put(W_FILE + w, p.file[w])] == body[..5 + w + 1];
        Write(s, body[..5 + w], W_FILE + w, p.file[w]);
      }
      var flags := NextFlags(words[W_FLAGS], run);
      assert body[..8] + [body[8]] == body;
      Write(s, body[..8], W_FLAGS, flags);
      Seal(s, body);
    }

    /** Writes the panic; answers whether the latch had been set before it. */
    method Record(p: PanicInfo) returns (latched: bool)
      requires Valid() && Packed(p)
      modifies this`log, words
      ensures Words() == Apply(old(Words()), RecordWrites(old(Words()), p))
      ensures log == old(log) + RecordWrites(old(Words()), p)
      ensures latched <==> Bit(Repaired(old(Words()))[W_FLAGS], F_HALT)
    {
      hide Apply, RepairWrites, Sealed, RecordBody;
      ghost var s := Words();
      Repair();
      ghost var s1 := Words();
      latched := RecordHead(p);
      ApplyCat(s, RepairWrites(s), Sealed(s1, RecordBody(s1, p)));
    }

    method RecordWhat(p: PanicInfo)
      requires Valid() && Packed(p)
      modifies this`log, words
      ensures Words() == Apply(old(Words()), WhatWrites(old(Words()), p))
      ensures log == old(log) + WhatWrites(old(Words()), p)
    {
      hide Apply, WhatChecksum, Has, OrZero;
      ghost var s := Words();
      ApplyNone(s);
      for w := 0 to WHAT_WORDS
        invariant Words() == Apply(s, TextWrites(p.what[..w])) && log == old(log) + TextWrites(p.what[..w])
        invariant words[W_PANICS] == s[W_PANICS]
      {
        var one := Put(W_WHAT + w, p.what[w]);
        assert TextWrites(p.what[..w]) + [one] == TextWrites(p.what[..w + 1]);
        Write(s, TextWrites(p.what[..w]), W_WHAT + w, p.what[w]);
      }
      assert p.what[..WHAT_WORDS] == p.what;
      ghost var a := TextWrites(p.what);
      ghost var b := a + [Put(W_PC, OrZero(p.pc))];
      ghost var c := b + [Put(W_ADDR, OrZero(p.addr))];
      ghost var d := c + [Put(W_WHAT_HAS, Has(p))];
      Write(s, a, W_PC, OrZero(p.pc));
      Write(s, b, W_ADDR, OrZero(p.addr));
      Write(s, c, W_WHAT_HAS, Has(p));
      Write(s, d, W_WHAT_FOR, words[W_PANICS]);
      assert d + [Put(W_WHAT_FOR, s[W_PANICS])] == WhatBody(s, p);
      var check := ReadWhatChecksum();
      Write(s, WhatBody(s, p), W_WHAT_CHECK, check);
    }

    method ReadReport() returns (r: Report)
      requires Valid()
      ensures r == ReportOf(Words())
    {
      var ok := IsIntact();
      if !ok {
        return Report(0, 0, None, false);
      }
      var flags := words[W_FLAGS];
      var last := None;
      if Bit(flags, F_PANIC) {
        var c := ReadWhatChecksum();
        var what, pc, addr := None, None, None;
        if words[W_WHAT_CHECK] == c && words[W_WHAT_FOR] == words[W_PANICS] {
          what := Some(words[W_WHAT..W_WHAT_CHECK]);
          var has := words[W_WHAT_HAS];
          pc := if Bit(has, H_PC) then Some(words[W_PC]) else None;
          addr := if Bit(has, H_ADDR) then Some(words[W_ADDR]) else None;
        }
        last := Some(LastPanic(
          words[W_UPTIME], words[W_PANIC_BOOT], words[W_LINE], words[W_RUN], words[W_FILE..W_FILE + 3],
          what, pc, addr));
      }
      r := Report(words[W_BOOTS], words[W_PANICS], last, Bit(flags, F_HALT));
    }
  }

  lemma XorNone(salt: Word)
    ensures Xor(salt, []) == salt
  {
  }

  lemma XorNext(salt: Word, s: seq<Word>, lo: nat, hi: nat)
    requires lo <= hi < |s|
    ensures Xor(salt, s[lo..hi + 1]) == Flip(Xor(salt, s[lo..hi]), s[hi])
  {
    var t := s[lo..hi + 1];
    assert t[..|t| - 1] == s[lo..hi] && Last(t) == s[hi];
  }

  /** A word that no write is at keeps its value. */
  lemma {:induction false} ApplyKeeps(s: Region, ps: seq<Put>, i: nat)
    requires Inside(ps) && i < WORDS && forall p :: p in ps ==> p.at != i
    ensures Apply(s, ps)[i] == s[i]
  {
    if ps != [] {
      ApplyKeeps(s, ps[..|ps| - 1], i);
    }
  }
}
