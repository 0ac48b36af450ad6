/** What a reset in the middle of an update leaves behind.

    An update is accepted half way exactly when the changes made so far cancel out in the checksum.
    With at most two words before the checksum that never shows; with the nine of `record` it does. */
module BreadcrumbCrash {
  import opened Common
  import opened Breadcrumb
  import opened Words

  /** The exclusive or of every change these writes make to `s`. */
  function Delta(s: Region, ps: seq<Put>): Word
    requires Inside(ps)
  {
    if ps == [] then 0 else Flip(Delta(s, ps[..|ps| - 1]), Flip(s[Last(ps).at], Last(ps).v))
  }

  /** Writes to words of the record other than its magic number and its checksum, each at most once. */
  predicate Plain(ps: seq<Put>) {
    && (forall i :: 0 <= i < |ps| ==> W_MAGIC < ps[i].at < W_CHECK)
    && forall i, j :: 0 <= i < j < |ps| ==> ps[i].at != ps[j].at
  }

  // -------------------------------------------------------------------------
  // Checksums and writes
  // -------------------------------------------------------------------------

  lemma FlipOver(x: Word, a: Word, b: Word)
    ensures Flip(x, b) == Flip(Flip(x, a), Flip(a, b))
  {
    assert (x ^ a) ^ (a ^ b) == x ^ b;
  }

  lemma FlipTogether(x: Word, d: Word, e: Word)
    ensures Flip(Flip(x, d), e) == Flip(x, Flip(d, e))
  {
  }

  lemma FlipCommutes(a: Word, b: Word)
    ensures Flip(a, b) == Flip(b, a)
  {
  }

  lemma FlipPast(x: Word, d: Word, a: Word)
    ensures Flip(Flip(x, d), a) == Flip(Flip(x, a), d)
  {
    hide Flip;
    FlipTogether(x, d, a);
    FlipTogether(x, a, d);
    FlipCommutes(d, a);
  }

  lemma FlipNothing(a: Word)
    ensures Flip(a, 0) == a == Flip(0, a)
  {
  }

  lemma FlipIsEquality(a: Word, b: Word)
    ensures Flip(a, b) == 0 <==> a == b
  {
    assert a ^ b == 0 <==> a == b;
  }

  lemma FlipKeepsOnlyByNothing(a: Word, d: Word)
    ensures Flip(a, d) == a <==> d == 0
  {
  }

  lemma {:induction false} XorUpdate(salt: Word, s: seq<Word>, i: nat, v: Word)
    requires i < |s|
    ensures Xor(salt, s[i := v]) == Flip(Xor(salt, s), Flip(s[i], v))
  {
    hide Flip;
    var n := |s| - 1;
    if i == n {
      assert s[i := v][..n] == s[..n];
      FlipOver(Xor(salt, s[..n]), s[n], v);
    } else {
      assert s[i := v][..n] == s[..n][i := v];
      XorUpdate(salt, s[..n], i, v);
      FlipPast(Xor(salt, s[..n]), Flip(s[i], v), s[n]);
    }
  }

  lemma ChecksumUpdate(s: Region, p: Put)
    requires p.at < W_CHECK
    ensures Checksum(s[p.at := p.v]) == Flip(Checksum(s), Flip(s[p.at], p.v))
  {
    hide Xor, Flip;
    assert s[p.at := p.v][..W_CHECK] == s[..W_CHECK][p.at := p.v];
    XorUpdate(CHECK_SALT, s[..W_CHECK], p.at, p.v);
  }

  lemma ChecksumElsewhere(s: Region, p: Put)
    requires W_CHECK <= p.at < WORDS
    ensures Checksum(s[p.at := p.v]) == Checksum(s)
  {
    hide Xor;
    assert s[p.at := p.v][..W_CHECK] == s[..W_CHECK];
  }

  lemma {:induction false} ChecksumApply(s: Region, ps: seq<Put>)
    requires Plain(ps)
    ensures Checksum(Apply(s, ps)) == Flip(Checksum(s), Delta(s, ps))
  {
    hide Checksum, Flip;
    if ps == [] {
      FlipNothing(Checksum(s));
    } else {
      var shorter := ps[..|ps| - 1];
      ChecksumApply(s, shorter);
      ChecksumUpdate(Apply(s, shorter), Last(ps));
      ApplyKeeps(s, shorter, Last(ps).at);
      FlipTogether(Checksum(s), Delta(s, shorter), Flip(s[Last(ps).at], Last(ps).v));
    }
  }

  /** Half an update is taken for a whole record exactly when its changes cancel out. */
  lemma AcceptedExactlyWhen(s: Region, ps: seq<Put>)
    requires Intact(s) && Plain(ps)
    ensures Intact(Apply(s, ps)) <==> Delta(s, ps) == 0
  {
    hide Checksum, Apply, Delta, Flip;
    ChecksumApply(s, ps);
    FlipKeepsOnlyByNothing(Checksum(s), Delta(s, ps));
    ApplyKeeps(s, ps, W_MAGIC);
    ApplyKeeps(s, ps, W_CHECK);
  }

  /** A finished update is intact. */
  lemma SealedIsIntact(s: Region, ps: seq<Put>)
    requires Inside(ps) && Apply(s, ps)[W_MAGIC] == MAGIC
    ensures Intact(Apply(s, Sealed(s, ps)))
  {
    hide Checksum, Apply;
    var c := Put(W_CHECK, Checksum(Apply(s, ps)));
    ApplyOne(s, ps, c);
    ChecksumElsewhere(Apply(s, ps), c);
  }

  // -------------------------------------------------------------------------
  // Two words or fewer
  // -------------------------------------------------------------------------

  /** With one or two words and then the checksum, a reset after any of the writes leaves a region that
      is not accepted, exactly the old one, or exactly the new one. */
  lemma ShortUpdateIsAtomic(s: Region, ps: seq<Put>, k: nat)
    requires Intact(s) && Plain(ps) && |ps| <= 2 && k <= |ps| + 1
    ensures Intact(Apply(s, Sealed(s, ps)))
    ensures
      var r := Apply(s, Sealed(s, ps)[..k]);
      Intact(r) ==> r == s || r == Apply(s, Sealed(s, ps))
  {
    hide Checksum, Intact;
    assert Intact(s) ==> s[W_MAGIC] == MAGIC && s[W_CHECK] == Checksum(s) by {
      MeansIntact(s);
    }
    var all := Sealed(s, ps);
    ApplyKeeps(s, ps, W_MAGIC);
    SealedIsIntact(s, ps);
    if k == 0 {
      assert all[..k] == [];
    } else if k == |ps| + 1 {
      assert all[..k] == all;
    } else if k == |ps| {
      assert all[..k] == ps;
      AcceptedBeforeTheSeal(s, ps);
    } else {
      assert all[..k] == [ps[0]];
      AcceptedAfterOneWord(s, ps[0]);
    }
  }

  lemma MeansIntact(s: Region)
    ensures Intact(s) <==> s[W_MAGIC] == MAGIC && s[W_CHECK] == Checksum(s)
  {
  }

  /** If everything but the checksum is written and the record is accepted, the checksum was the old
      one already. */
  lemma AcceptedBeforeTheSeal(s: Region, ps: seq<Put>)
    requires Intact(s) && Plain(ps)
    ensures Intact(Apply(s, ps)) ==> Apply(s, ps) == Apply(s, Sealed(s, ps))
  {
    hide Checksum, Apply;
    ApplyOne(s, ps, Put(W_CHECK, Checksum(Apply(s, ps))));
    var r := Apply(s, ps);
    assert r[W_CHECK] == Checksum(r) ==> r[W_CHECK := Checksum(r)] == r;
  }

  lemma AcceptedAfterOneWord(s: Region, p: Put)
    requires Intact(s) && Plain([p])
    ensures Intact(Apply(s, [p])) ==> Apply(s, [p]) == s
  {
    AcceptedExactlyWhen(s, [p]);
    DeltaOfOne(s, p);
    hide Checksum, Intact, Delta;
    ApplyNone(s);
    ApplyOne(s, [], p);
    assert [] + [p] == [p];
    assert s[p.at] == p.v ==> s[p.at := p.v] == s;
  }

  lemma DeltaOfOne(s: Region, p: Put)
    requires p.at < WORDS
    ensures Delta(s, [p]) == 0 <==> s[p.at] == p.v
  {
    hide Flip;
    assert [p][..0] == [];
    FlipNothing(Flip(s[p.at], p.v));
    FlipIsEquality(s[p.at], p.v);
  }

  // -------------------------------------------------------------------------
  // Wiping
  // -------------------------------------------------------------------------

  lemma {:induction false} ZerosAt(s: Region, n: nat)
    requires n <= WORDS
    ensures forall i :: 0 <= i < n ==> Apply(s, Zeros(n))[i] == 0
    ensures forall i :: n <= i < WORDS ==> Apply(s, Zeros(n))[i] == s[i]
  {
    if n != 0 {
      ZerosAt(s, n - 1);
      assert Zeros(n)[..n - 1] == Zeros(n - 1);
    }
  }

  lemma {:induction false} XorOfZeros(salt: Word, s: seq<Word>)
    requires forall i :: 0 <= i < |s| ==> s[i] == 0
    ensures Xor(salt, s) == salt
  {
    if s != [] {
      XorOfZeros(salt, s[..|s| - 1]);
    }
  }

  /** All zeros but the magic number and the checksum. */
  function Empty(): Region {
    Blank()[W_MAGIC := MAGIC][W_CHECK := Flip(CHECK_SALT, MAGIC)]
  }

  lemma ChecksumOfEmpty(s: Region)
    requires s[W_MAGIC] == MAGIC && forall i :: 0 < i < W_CHECK ==> s[i] == 0
    ensures Checksum(s) == Flip(CHECK_SALT, MAGIC)
  {
    hide Xor;
    var zeros := s[..W_CHECK][W_MAGIC := 0];
    XorOfZeros(CHECK_SALT, zeros);
    XorUpdate(CHECK_SALT, zeros, W_MAGIC, MAGIC);
    FlipNothing(MAGIC);
    assert zeros[W_MAGIC := MAGIC] == s[..W_CHECK];
  }

  /** Whatever was there, a wipe leaves the same intact, empty region. */
  lemma WipeLeavesEmpty(s: Region)
    ensures Apply(s, WipeWrites(s)) == Empty() && Intact(Empty())
  {
    hide Apply, Checksum;
    ZerosAt(s, WORDS);
    ApplyOne(s, Zeros(WORDS), Put(W_MAGIC, MAGIC));
    var ps := Zeros(WORDS) + [Put(W_MAGIC, MAGIC)];
    ChecksumOfEmpty(Apply(s, ps));
    ApplyOne(s, ps, Put(W_CHECK, Flip(CHECK_SALT, MAGIC)));
    ChecksumOfEmpty(Empty());
    assert Apply(s, WipeWrites(s)) == Empty();
  }

  /** A reset in the middle of a wipe leaves the region as it was, or not accepted, or empty. */
  lemma WipeIsAtomic(s: Region, k: nat)
    requires k <= |WipeWrites(s)|
    ensures
      var r := Apply(s, WipeWrites(s)[..k]);
      Intact(r) ==> r == s || r == Empty()
  {
    hide Apply, Checksum;
    var ws := WipeWrites(s);
    WipeLeavesEmpty(s);
    if k == 0 {
      assert ws[..k] == [];
      ApplyNone(s);
    } else if k <= WORDS {
      assert ws[..k] == Zeros(k);
      ZerosAt(s, k);
      assert Apply(s, Zeros(k))[W_MAGIC] == 0;
    } else if k == WORDS + 1 {
      var ps := Zeros(WORDS) + [Put(W_MAGIC, MAGIC)];
      assert ws[..k] == ps;
      ZerosAt(s, WORDS);
      ApplyOne(s, Zeros(WORDS), Put(W_MAGIC, MAGIC));
      ChecksumOfEmpty(Apply(s, ps));
    } else {
      assert ws[..k] == ws;
    }
  }

  lemma RepairedIsIntact(s: Region)
    ensures Intact(Repaired(s)) && (Intact(s) ==> Repaired(s) == s) && (!Intact(s) ==> Repaired(s) == Empty())
  {
    hide Checksum, WipeWrites;
    WipeLeavesEmpty(s);
  }

  // -------------------------------------------------------------------------
  // The four short updates
  // -------------------------------------------------------------------------

  /** After any number of the writes `ws`, an accepted region is exactly one of these two. */
  ghost predicate Atomic(s: Region, ws: seq<Put>, before: Region, after: Region)
    requires Inside(ws)
  {
    forall k :: 0 <= k <= |ws| && Intact(Apply(s, ws[..k])) ==>
      Apply(s, ws[..k]) == before || Apply(s, ws[..k]) == after
  }

  lemma CountIsAtomic(s: Region, reason: Word)
    requires Intact(s)
    ensures Atomic(s, CountWrites(s, reason), s, Apply(s, CountWrites(s, reason)))
  {
    hide Intact, Apply, Checksum, SaturatingInc;
    var ps := [Put(W_BOOTS, SaturatingInc(s[W_BOOTS])), Put(W_PREV_RESET, reason)];
    assert CountWrites(s, reason) == Sealed(s, ps);
    forall k | 0 <= k <= |Sealed(s, ps)| && Intact(Apply(s, Sealed(s, ps)[..k]))
      ensures Apply(s, Sealed(s, ps)[..k]) == s || Apply(s, Sealed(s, ps)[..k]) == Apply(s, Sealed(s, ps))
    {
      ShortUpdateIsAtomic(s, ps, k);
    }
  }

  lemma SectorIsAtomic(s: Region, sectors: Word)
    ensures Atomic(s, SectorWrites(s, sectors), s, Apply(s, SectorWrites(s, sectors)))
  {
    hide Intact, Apply, Checksum;
    ApplyNone(s);
    if Intact(s) {
      var ps := [Put(W_SECTOR, sectors)];
      forall k | 0 <= k <= |Sealed(s, ps)| && Intact(Apply(s, Sealed(s, ps)[..k]))
        ensures Apply(s, Sealed(s, ps)[..k]) == s || Apply(s, Sealed(s, ps)[..k]) == Apply(s, Sealed(s, ps))
      {
        ShortUpdateIsAtomic(s, ps, k);
      }
    }
  }

  lemma MarkIsAtomic(s: Region, busy: bool)
    requires Intact(s)
    ensures Atomic(s, MarkUploadWrites(s, busy), s, Apply(s, MarkUploadWrites(s, busy)))
    ensures Intact(Apply(s, MarkUploadWrites(s, busy)))
  {
    hide Intact, Apply, Checksum, UploadBit;
    ApplyNone(s);
    var next := UploadBit(s[W_FLAGS], busy);
    var ps := [Put(W_SECTOR, 0), Put(W_FLAGS, next)];
    if next != s[W_FLAGS] {
      forall k | 0 <= k <= |Sealed(s, ps)| && Intact(Apply(s, Sealed(s, ps)[..k]))
        ensures Apply(s, Sealed(s, ps)[..k]) == s || Apply(s, Sealed(s, ps)[..k]) == Apply(s, Sealed(s, ps))
      {
        ShortUpdateIsAtomic(s, ps, k);
      }
      ShortUpdateIsAtomic(s, ps, 0);
    }
  }

  /** A reset during `set_in_upload` leaves no record, the old one (an empty one, if there was none), or
      the new one. */
  lemma UploadIsAtomic(s: Region, busy: bool)
    ensures Atomic(s, UploadWrites(s, busy), Repaired(s), Apply(s, UploadWrites(s, busy)))
  {
    hide Intact, Apply, Checksum, MarkUploadWrites, WipeWrites;
    var first := RepairWrites(s);
    var s1 := Repaired(s);
    var rest := MarkUploadWrites(s1, busy);
    RepairedIsIntact(s);
    MarkIsAtomic(s1, busy);
    AtomicAfterRepair(s, rest, Apply(s1, rest));
    ApplyCat(s, first, rest);
  }

  lemma AtomicAfterRepair(s: Region, rest: seq<Put>, after: Region)
    requires Inside(rest) && Atomic(Repaired(s), rest, Repaired(s), after)
    ensures Inside(RepairWrites(s) + rest) && Atomic(s, RepairWrites(s) + rest, Repaired(s), after)
  {
    hide Intact, Apply, Checksum, WipeWrites;
    var first := RepairWrites(s);
    var ws := first + rest;
    RepairedIsIntact(s);
    forall k | 0 <= k <= |ws| && Intact(Apply(s, ws[..k]))
      ensures Apply(s, ws[..k]) == Repaired(s) || Apply(s, ws[..k]) == after
    {
      if k < |first| {
        assert ws[..k] == WipeWrites(s)[..k];
        WipeIsAtomic(s, k);
      } else {
        assert ws[..k] == first + rest[..k - |first|];
        ApplyCat(s, first, rest[..k - |first|]);
      }
    }
  }

  // -------------------------------------------------------------------------
  // A panic's record
  // -------------------------------------------------------------------------

  /** The word that write `i` of a panic's record is to. */
  function RecordWord(i: nat): nat {
    if i < 3 then W_PANICS + i else if i == 3 then W_PANIC_BOOT else if i == 8 then W_FLAGS else i + 1
  }

  lemma RecordBodyIsPlain(s: Region, p: PanicInfo)
    requires Packed(p)
    ensures Plain(RecordBody(s, p)) && |RecordBody(s, p)| == 9
  {
    hide SaturatingInc, NewRun, PanicFlags;
    var ps := RecordBody(s, p);
    assert forall i: nat :: i < 9 ==> ps[i].at == RecordWord(i);
    hide RecordBody;
  }

  /** A reset after the first `k` words of `record` leaves a record that is accepted exactly when the
      changes those words made cancel out. */
  lemma RecordAcceptedExactlyWhen(s: Region, p: PanicInfo, k: nat)
    requires Intact(s) && Packed(p) && k <= 9
    ensures Intact(Apply(s, RecordBody(s, p)[..k])) <==> Delta(s, RecordBody(s, p)[..k]) == 0
  {
    hide Intact, Apply, Delta, RecordBody;
    RecordBodyIsPlain(s, p);
    AcceptedExactlyWhen(s, RecordBody(s, p)[..k]);
  }

  /** A quick panic when the count of panics and the count of quick ones in a row are equal: both go up
      by the same, so the record is accepted after its second word, with the two counts of the new panic
      and everything else, the flag that says there was a panic included, as it was before. */
  lemma TwoCountsAreAccepted(s: Region, p: PanicInfo)
    requires Intact(s) && Packed(p) && p.uptime < QUICK_MS
    requires s[W_PANICS] == s[W_RUN] != 0xFFFF_FFFF
    ensures
      var r := Apply(s, RecordBody(s, p)[..2]);
      var n := SaturatingInc(s[W_PANICS]);
      && Intact(r) && r == s[W_PANICS := n][W_RUN := n]
      && r != s && r[W_FLAGS] == s[W_FLAGS]
  {
    hide Intact, Checksum, PanicFlags, Apply, Delta, Flip, SaturatingInc;
    var two := RecordBody(s, p)[..2];
    var n := SaturatingInc(s[W_PANICS]);
    var first, second := Put(W_PANICS, n), Put(W_RUN, n);
    assert two == [first, second];
    RecordAcceptedExactlyWhen(s, p, 2);
    DeltaOfTwo(s, first, second);
    FlipIsEquality(Flip(s[W_PANICS], n), Flip(s[W_PANICS], n));
    ApplyNone(s);
    ApplyOne(s, [], first);
    assert [] + [first] == [first];
    ApplyOne(s, [first], second);
    assert [first] + [second] == two;
    assert Apply(s, two)[W_PANICS] == n;
    Increases(s[W_PANICS]);
  }

  lemma Increases(n: Word)
    ensures SaturatingInc(n) == n <==> n == 0xFFFF_FFFF
  {
  }

  lemma DeltaOfTwo(s: Region, first: Put, second: Put)
    requires first.at < WORDS && second.at < WORDS
    ensures Delta(s, [first, second]) == Flip(Flip(s[first.at], first.v), Flip(s[second.at], second.v))
  {
    hide Flip;
    FlipNothing(Flip(s[first.at], first.v));
    assert [first, second][..1] == [first];
    assert [first][..0] == [];
    assert Delta(s, [first]) == Flip(s[first.at], first.v);
  }

  /** It happens: power on, boot, panic within a minute, and lose the chip between two words. The
      record that survives says there has been a panic and has none to show. */
  lemma HalfARecordIsAccepted(p: PanicInfo)
    requires Packed(p) && p.uptime < QUICK_MS
    ensures
      var booted := Apply(Blank(), BootWrites(Blank(), 1));
      var r := Apply(booted, RecordWrites(booted, p)[..2]);
      Intact(booted) && Intact(r) && ReportOf(r) == Report(1, 1, None, false)
  {
    hide Checksum, Xor, Apply, Bit, Intact, NewRun, PanicFlags, WipeWrites, BootWrites;
    var booted := Booted();
    FirstBoot();
    assert RepairWrites(booted) == [];
    ApplyNone(booted);
    assert RecordWrites(booted, p)[..2] == RecordBody(booted, p)[..2];
    assert booted[W_PANICS] == 0 && booted[W_RUN] == 0 && booted[W_FLAGS] == 0 && booted[W_BOOTS] == 1;
    TwoCountsAreAccepted(booted, p);
    var r := Apply(booted, RecordBody(booted, p)[..2]);
    assert r[W_PANICS] == 1 && r[W_BOOTS] == 1 && r[W_FLAGS] == 0;
    NoBits(F_PANIC);
    NoBits(F_HALT);
  }

  lemma NoBits(bit: Word)
    ensures !Bit(0, bit)
  {
  }

  function Booted(): Region {
    Empty()[W_BOOTS := 1][W_PREV_RESET := 1]
  }

  lemma FirstBoot()
    ensures Apply(Blank(), BootWrites(Blank(), 1)) == Booted() && Intact(Booted())
  {
    hide Apply, Checksum, WipeWrites;
    var s := Blank();
    RepairedIsIntact(s);
    assert !Intact(s);
    var e := Empty();
    var two := [Put(W_BOOTS, 1), Put(W_PREV_RESET, 1)];
    assert CountWrites(e, 1) == Sealed(e, two);
    CountOfEmpty(two);
    assert ClearUploadWrites(Booted()) == [];
    ApplyNone(Booted());
    ApplyCat(s, WipeWrites(s), CountWrites(e, 1));
    assert BootWrites(s, 1) == WipeWrites(s) + CountWrites(e, 1) + [];
    assert WipeWrites(s) + CountWrites(e, 1) + [] == WipeWrites(s) + CountWrites(e, 1);
  }

  lemma CountOfEmpty(two: seq<Put>)
    requires two == [Put(W_BOOTS, 1), Put(W_PREV_RESET, 1)]
    ensures Apply(Empty(), Sealed(Empty(), two)) == Booted() && Intact(Booted())
  {
    hide Checksum, Apply;
    var e := Empty();
    WipeLeavesEmpty(e);
    ApplyNone(e);
    ApplyOne(e, [], two[0]);
    assert [] + [two[0]] == [two[0]];
    ApplyOne(e, [two[0]], two[1]);
    assert [two[0]] + [two[1]] == two;
    ChecksumUpdate(e, two[0]);
    ChecksumUpdate(e[W_BOOTS := 1], two[1]);
    ApplyOne(e, two, Put(W_CHECK, Flip(CHECK_SALT, MAGIC)));
    assert Booted()[W_CHECK] == Flip(CHECK_SALT, MAGIC);
    assert Booted()[W_CHECK := Flip(CHECK_SALT, MAGIC)] == Booted();
  }
}
