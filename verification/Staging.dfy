/** Staging an upload: the body is read straight into a one-sector buffer, scanned, and written to the
    spare slot a sector at a time. */
module Staging {
  import opened Common
  import opened ImageScan

  const SECTOR: nat := 4096
  const ERASED: Byte := 0xFF

  /** What is asked of the flash, in order. */
  datatype Op = Erase(at: nat) | Write(at: nat, data: seq<Byte>)

  /** What goes wrong with one sector: its bytes are then anything. */
  datatype Fault = NoFault | EraseFails(junk: seq<Byte>) | WriteFails(junk: seq<Byte>)

  predicate Sane(f: Fault) {
    f.NoFault? || |f.junk| == SECTOR
  }

  // -------------------------------------------------------------------------
  // What a body asks of the flash
  // -------------------------------------------------------------------------

  function Chunk(body: seq<Byte>, i: nat): (c: seq<Byte>)
    requires i * SECTOR <= |body|
    ensures |c| <= SECTOR
  {
    if (i + 1) * SECTOR <= |body| then body[i * SECTOR..(i + 1) * SECTOR] else body[i * SECTOR..]
  }

  function PadLen(n: nat): nat {
    if n % 4 == 0 then 0 else 4 - n % 4
  }

  /** Rounded up to a word with what an erased flash holds. */
  function Padded(c: seq<Byte>): seq<Byte> {
    c + seq(PadLen(|c|), _ => ERASED)
  }

  /** The first `n` sectors of a body: each is erased, then written, and that once. */
  function Ops(body: seq<Byte>, n: nat): (ops: seq<Op>)
    requires n > 0 ==> (n - 1) * SECTOR <= |body|
    ensures |ops| == 2 * n
  {
    if n == 0 then []
    else Ops(body, n - 1) + [Erase((n - 1) * SECTOR), Write((n - 1) * SECTOR, Padded(Chunk(body, n - 1)))]
  }

  /** Sector `i` is erased once, by the operation just before the one that writes it, and written once. */
  lemma {:induction false} EachSectorOnce(body: seq<Byte>, n: nat, i: nat)
    requires i < n && (n - 1) * SECTOR <= |body|
    ensures i * SECTOR <= |body|
    ensures Ops(body, n)[2 * i] == Erase(i * SECTOR)
    ensures Ops(body, n)[2 * i + 1] == Write(i * SECTOR, Padded(Chunk(body, i)))
    ensures forall k :: 0 <= k < 2 * n && k != 2 * i && k != 2 * i + 1 ==> Ops(body, n)[k].at != i * SECTOR
  {
    hide Padded, Chunk;
    if i < n - 1 {
      EachSectorOnce(body, n - 1, i);
    } else {
      OpsBefore(body, n - 1, i * SECTOR);
    }
  }

  lemma {:induction false} OpsBefore(body: seq<Byte>, n: nat, end: nat)
    requires n > 0 ==> (n - 1) * SECTOR <= |body|
    requires n * SECTOR <= end
    ensures forall k :: 0 <= k < 2 * n ==> Ops(body, n)[k].at < end
  {
    hide Padded, Chunk;
    if n > 0 {
      OpsBefore(body, n - 1, end);
    }
  }

  function Sectors(n: nat): (k: nat)
    ensures k * SECTOR >= n && (k > 0 ==> (k - 1) * SECTOR < n)
  {
    (n + SECTOR - 1) / SECTOR
  }

  lemma ChunkOfMore(body: seq<Byte>, more: seq<Byte>, i: nat)
    requires (i + 1) * SECTOR <= |body|
    ensures Chunk(body + more, i) == Chunk(body, i)
  {
    var a, b := i * SECTOR, (i + 1) * SECTOR;
    assert (body + more)[a..b] == body[a..b];
  }

  /** Sectors that are all there do not change when more of the body comes. */
  lemma {:induction false} OpsOfMore(body: seq<Byte>, more: seq<Byte>, n: nat)
    requires n * SECTOR <= |body|
    ensures Ops(body + more, n) == Ops(body, n)
  {
    hide Chunk, Padded;
    if n > 0 {
      OpsOfMore(body, more, n - 1);
      ChunkOfMore(body, more, n - 1);
    }
  }

  predicate InSlot(ops: seq<Op>, slotLen: nat) {
    forall op :: op in ops ==> op.at % SECTOR == 0 && op.at + SECTOR <= slotLen && (op.Write? ==> |op.data| <= SECTOR)
  }

  // -------------------------------------------------------------------------
  // The verdict on a body, whatever reads it comes in
  // -------------------------------------------------------------------------

  /** What has been scanned when the first sector is about to be erased. */
  function FirstPart(body: seq<Byte>): seq<Byte> {
    if |body| <= SECTOR then body else body[..SECTOR]
  }

  /** The first sector may be erased. */
  predicate FrontPassed(slotLen: nat, body: seq<Byte>) {
    var s := Bytes(New(slotLen), FirstPart(body));
    s.Ok? && CheckFront(s.value).None?
  }

  function Verdict(slotLen: nat, body: seq<Byte>, sha: seq<Byte> -> seq<Byte>): Result<Image, Error> {
    var front := Bytes(New(slotLen), FirstPart(body));
    if front.Err? then Err(front.error)
    else if CheckFront(front.value).Some? then Err(CheckFront(front.value).value)
    else
      var all := Bytes(New(slotLen), body);
      if all.Err? then Err(all.error) else Finish(all.value, sha)
  }

  /** A body that has come this far is refused with this error, and would be however it came. */
  ghost predicate Refuses(slotLen: nat, part: seq<Byte>, e: Error) {
    || (Bytes(New(slotLen), part) == Err(e) && (|part| <= SECTOR || FrontPassed(slotLen, part)))
    || (|part| == SECTOR && Bytes(New(slotLen), part).Ok? && CheckFront(Bytes(New(slotLen), part).value) == Some(e))
    || (|part| > slotLen && e == TooLarge)
  }

  lemma RefusalIsTheVerdict(slotLen: nat, part: seq<Byte>, rest: seq<Byte>, e: Error, sha: seq<Byte> -> seq<Byte>)
    requires Refuses(slotLen, part, e) && |part + rest| <= slotLen
    ensures Verdict(slotLen, part + rest, sha) == Err(e)
  {
    hide Bytes, CheckFront;
    var body := part + rest;
    var first := FirstPart(body);
    BytesCat(New(slotLen), part, rest);
    if |part| == SECTOR {
      assert first == part;
    } else if |part| < SECTOR {
      assert first == part + first[|part|..];
      BytesCat(New(slotLen), part, first[|part|..]);
    } else {
      assert first == FirstPart(part);
    }
  }

  /** A body refused within its first sector has not passed the front check. */
  lemma RefusedBeforeTheFirst(slotLen: nat, part: seq<Byte>, rest: seq<Byte>, e: Error)
    requires Refuses(slotLen, part, e) && |part| <= SECTOR && |part + rest| <= slotLen
    ensures !FrontPassed(slotLen, part + rest)
  {
    hide Bytes, CheckFront;
    var first := FirstPart(part + rest);
    assert first == part + first[|part|..];
    BytesCat(New(slotLen), part, first[|part|..]);
    assert |part| == SECTOR ==> first == part;
  }

  /** What has passed the front check has passed it whatever follows. */
  lemma FrontStaysPassed(slotLen: nat, part: seq<Byte>, rest: seq<Byte>)
    requires FrontPassed(slotLen, part) && |part| >= SECTOR
    ensures FrontPassed(slotLen, part + rest)
  {
    assert FirstPart(part + rest) == FirstPart(part);
  }

  // -------------------------------------------------------------------------
  // What a body asks of the flash, whatever reads it comes in
  // -------------------------------------------------------------------------

  /** How much of a body the scanner takes before it finds a fault. */
  function GoodLen(slotLen: nat, body: seq<Byte>): (n: nat)
    ensures n <= |body|
  {
    if body == [] || Bytes(New(slotLen), body).Ok? then |body| else GoodLen(slotLen, body[..|body| - 1])
  }

  /** Nothing before the front has been checked; every whole sector before the fault, or before the end of the slot;
      and without either all of the body. */
  function OpsAsked(slotLen: nat, body: seq<Byte>): seq<Op> {
    var n := GoodLen(slotLen, body);
    if !FrontPassed(slotLen, body) then []
    else if n == |body| <= slotLen then Ops(body, Sectors(|body|))
    else Ops(body, (if n < slotLen then n else slotLen) / SECTOR)
  }

  /** Up to that length the scanner is content and past it it is not. */
  lemma {:induction false} GoodExactlyUpTo(slotLen: nat, body: seq<Byte>, k: nat)
    requires k <= |body|
    ensures Bytes(New(slotLen), body[..k]).Ok? <==> k <= GoodLen(slotLen, body)
  {
    hide Bytes;
    BytesOfNone(New(slotLen));
    assert body[..|body|] == body;
    if body == [] {
      assert body[..k] == [];
    } else if Bytes(New(slotLen), body).Ok? {
      BytesCat(New(slotLen), body[..k], body[k..]);
      assert body[..k] + body[k..] == body;
    } else if k < |body| {
      GoodExactlyUpTo(slotLen, body[..|body| - 1], k);
      assert body[..|body| - 1][..k] == body[..k];
    }
  }

  /** What is asked of the flash when the bytes from `k` to `next`, all in one sector, are refused. */
  lemma RefusedOps(slotLen: nat, body: seq<Byte>, k: nat, next: nat, e: Error, log: seq<Op>)
    requires k <= next <= |body| && k <= slotLen && slotLen % SECTOR == 0 && next <= (k / SECTOR + 1) * SECTOR
    requires Bytes(New(slotLen), body[..k]).Ok? && Refuses(slotLen, body[..next], e)
    requires log == Ops(body, k / SECTOR) && (log != [] ==> FrontPassed(slotLen, body))
    ensures log == OpsAsked(slotLen, body)
  {
    hide Bytes, Ops, FrontPassed, CheckFront;
    GoodExactlyUpTo(slotLen, body, k);
    GoodExactlyUpTo(slotLen, body, next);
    OpsOfNone(body);
    var part, n, q := body[..next], GoodLen(slotLen, body), k / SECTOR;
    assert FirstPart(body) == FirstPart(part) || next < SECTOR;
    if !FrontPassed(slotLen, body) {
      assert log == [];
    } else if next > slotLen {
      SameSector(k, slotLen, next);
      assert slotLen / SECTOR == q;
    } else {
      if next >= SECTOR {
        FrontIsThatOfTheFirst(slotLen, body, part);
      }
      assert n < next;
      SameSector(k, n, next);
    }
  }

  lemma OpsAskedAtTheEnd(slotLen: nat, body: seq<Byte>)
    requires |body| <= slotLen && Bytes(New(slotLen), body).Ok?
    ensures OpsAsked(slotLen, body) == if FrontPassed(slotLen, body) then Ops(body, Sectors(|body|)) else []
  {
    hide Bytes, Ops, FrontPassed;
  }

  lemma Parts(offset: nat, fill: nat)
    requires offset % SECTOR == 0 && fill < SECTOR
    ensures (offset + fill) / SECTOR == offset / SECTOR && (offset + fill) % SECTOR == fill
  {
  }

  lemma FrontIsThatOfTheFirst(slotLen: nat, body: seq<Byte>, part: seq<Byte>)
    requires part <= body && |part| >= SECTOR && FrontPassed(slotLen, body)
    ensures FrontPassed(slotLen, part) && (|part| == SECTOR ==> CheckFront(Bytes(New(slotLen), part).value).None?)
  {
    assert FirstPart(part) == FirstPart(body);
  }

  lemma SameSector(k: nat, n: nat, next: nat)
    requires k <= n < next <= (k / SECTOR + 1) * SECTOR
    ensures n / SECTOR == k / SECTOR
  {
  }

  // -------------------------------------------------------------------------
  // The flash
  // -------------------------------------------------------------------------

  function And(a: Byte, b: Byte): Byte {
    a & b
  }

  lemma AndErased(b: Byte)
    ensures And(ERASED, b) == b
  {
  }

  /** What an operation that nothing goes wrong with makes of the flash: programming can only clear bits. */
  function Performed(cells: seq<Byte>, op: Op): (r: seq<Byte>)
    ensures |r| == |cells|
  {
    match op
    case Erase(at) => seq(|cells|, i requires 0 <= i < |cells| => if at <= i < at + SECTOR then ERASED else cells[i])
    case Write(at, data) =>
      seq(|cells|, i requires 0 <= i < |cells| =>
        if at <= i < at + |data| then And(cells[i], data[i - at]) else cells[i])
  }

  function AllPerformed(cells: seq<Byte>, ops: seq<Op>): (r: seq<Byte>)
    ensures |r| == |cells|
  {
    if ops == [] then cells else Performed(AllPerformed(cells, ops[..|ops| - 1]), Last(ops))
  }

  lemma OneMorePerformed(cells: seq<Byte>, ops: seq<Op>, op: Op)
    ensures AllPerformed(cells, ops + [op]) == Performed(AllPerformed(cells, ops), op)
  {
    assert (ops + [op])[..|ops + [op]| - 1] == ops;
  }

  lemma IsErased(cells: seq<Byte>, at: nat, r: seq<Byte>)
    requires |r| == |cells| && at + SECTOR <= |cells|
    requires forall i :: at <= i < at + SECTOR ==> r[i] == ERASED
    requires forall i :: 0 <= i < |cells| && !(at <= i < at + SECTOR) ==> r[i] == cells[i]
    ensures r == Performed(cells, Erase(at))
  {
  }

  lemma IsProgrammed(cells: seq<Byte>, at: nat, data: seq<Byte>, r: seq<Byte>)
    requires |r| == |cells| && at + |data| <= |cells|
    requires forall i :: 0 <= i < |data| ==> r[at + i] == And(cells[at + i], data[i])
    requires forall i :: 0 <= i < |cells| && !(at <= i < at + |data|) ==> r[i] == cells[i]
    ensures r == Performed(cells, Write(at, data))
  {
    hide And;
    forall i | at <= i < at + |data| ensures r[i] == And(cells[i], data[i - at]) {
      assert r[at + (i - at)] == And(cells[at + (i - at)], data[i - at]);
    }
  }

  class Slot {
    const cells: array<Byte>
    ghost const was: seq<Byte>
    ghost var log: seq<Op>

    /** Nothing has gone wrong: what is in the flash is what was there and what was asked for since. */
    ghost predicate Faithful()
      reads this, cells
    {
      cells[..] == AllPerformed(was, log)
    }

    constructor (contents: seq<Byte>)
      ensures cells[..] == was == contents && log == [] && fresh(cells) && Faithful()
    {
      cells := new Byte[|contents|](i requires 0 <= i < |contents| => contents[i]);
      was := contents;
      log := [];
    }

    method EraseSector(offset: nat)
      requires offset + SECTOR <= cells.Length
      modifies cells, this`log
      ensures log == old(log) + [Erase(offset)]
      ensures forall i :: offset <= i < offset + SECTOR ==> cells[i] == ERASED
      ensures forall i :: 0 <= i < cells.Length && !(offset <= i < offset + SECTOR) ==> cells[i] == old(cells[i])
      ensures old(Faithful()) ==> Faithful()
    {
      hide AllPerformed, Performed;
      OneMorePerformed(was, log, Erase(offset));
      ghost var before := cells[..];
      log := log + [Erase(offset)];
      for i := 0 to SECTOR
        invariant log == old(log) + [Erase(offset)]
        invariant forall j :: offset <= j < offset + i ==> cells[j] == ERASED
        invariant forall j :: 0 <= j < cells.Length && !(offset <= j < offset + i) ==> cells[j] == old(cells[j])
      {
        cells[offset + i] := ERASED;
      }
      IsErased(before, offset, cells[..]);
    }

    /** Programming can only clear bits. */
    method Program(offset: nat, data: array<Byte>, len: nat)
      requires data != cells && len <= data.Length && offset + len <= cells.Length
      modifies cells, this`log
      ensures log == old(log) + [Write(offset, data[..len])]
      ensures forall i :: 0 <= i < len ==> cells[offset + i] == And(old(cells[offset + i]), data[i])
      ensures forall i :: 0 <= i < cells.Length && !(offset <= i < offset + len) ==> cells[i] == old(cells[i])
      ensures old(Faithful()) ==> Faithful()
    {
      hide And, AllPerformed, Performed;
      OneMorePerformed(was, log, Write(offset, data[..len]));
      ghost var before := cells[..];
      ghost var bytes := data[..len];
      log := log + [Write(offset, data[..len])];
      for i := 0 to len
        invariant log == old(log) + [Write(offset, data[..len])]
        invariant forall j :: 0 <= j < i ==> cells[offset + j] == And(old(cells[offset + j]), data[j])
        invariant forall j :: 0 <= j < cells.Length && !(offset <= j < offset + i) ==> cells[j] == old(cells[j])
      {
        cells[offset + i] := And(cells[offset + i], data[i]);
      }
      IsProgrammed(before, offset, bytes, cells[..]);
    }

    method Spoil(offset: nat, junk: seq<Byte>)
      requires |junk| == SECTOR && offset + SECTOR <= cells.Length
      modifies cells
      ensures forall i :: 0 <= i < cells.Length && !(offset <= i < offset + SECTOR) ==> cells[i] == old(cells[i])
    {
      for i := 0 to SECTOR
        invariant forall j :: 0 <= j < cells.Length && !(offset <= j < offset + SECTOR) ==> cells[j] == old(cells[j])
      {
        cells[offset + i] := junk[i];
      }
    }

    /** `stage_sector`: erase one sector, then write what there is of it. */
    method StageSector(offset: nat, data: array<Byte>, len: nat, fault: Fault) returns (ok: bool)
      requires data != cells && len <= SECTOR && len <= data.Length && offset + SECTOR <= cells.Length && Sane(fault)
      modifies cells, this`log
      ensures ok <==> fault.NoFault?
      ensures log == old(log) + [Erase(offset)] + if fault.EraseFails? then [] else [Write(offset, data[..len])]
      ensures ok ==> forall i :: 0 <= i < len ==> cells[offset + i] == data[i]
      ensures ok ==> forall i :: offset + len <= i < offset + SECTOR ==> cells[i] == ERASED
      ensures forall i :: 0 <= i < cells.Length && !(offset <= i < offset + SECTOR) ==> cells[i] == old(cells[i])
      ensures ok && old(Faithful()) ==> Faithful()
    {
      hide And, Faithful;
      EraseSector(offset);
      if fault.EraseFails? {
        Spoil(offset, fault.junk);
        return false;
      }
      Program(offset, data, len);
      if fault.WriteFails? {
        Spoil(offset, fault.junk);
        return false;
      }
      forall i | 0 <= i < len ensures cells[offset + i] == data[i] {
        AndErased(data[i]);
      }
      return true;
    }
  }

  /** The bound checked before every write. */
  function PlanWrite(slotLen: nat, offset: nat, len: nat): Option<Error> {
    if offset % SECTOR != 0 || len > SECTOR || len == 0 then Some(Flash)
    else if offset + len > slotLen then Some(TooLarge)
    else None
  }

  /** A write goes ahead exactly when its bytes are some of one sector's first and of the slot's. */
  lemma PlannedExactlyWhen(slotLen: nat, offset: nat, len: nat)
    ensures
      PlanWrite(slotLen, offset, len) == None <==>
        exists n: nat :: offset == n * 4096 && 0 < len <= 4096 && n * 4096 + len <= slotLen
    ensures PlanWrite(slotLen, offset, len) == Some(TooLarge) ==> offset + len > slotLen
  {
    if offset % 4096 == 0 {
      assert offset == offset / 4096 * 4096;
    }
  }

  lemma Room(slotLen: nat, offset: nat, fill: nat)
    requires slotLen % SECTOR == 0 && offset % SECTOR == 0 && 0 < fill <= SECTOR && offset + fill <= slotLen
    ensures offset + SECTOR <= slotLen && PlanWrite(slotLen, offset, fill + PadLen(fill)) == None
    ensures (offset + SECTOR) % SECTOR == 0 && (offset + SECTOR) / SECTOR == offset / SECTOR + 1
    ensures offset / SECTOR * SECTOR == offset
  {
    var a, b := slotLen / SECTOR, offset / SECTOR;
    assert slotLen == a * SECTOR && offset == b * SECTOR;
    assert b < a;
    PadFits(fill);
  }

  lemma PadFits(n: nat)
    requires n <= SECTOR
    ensures n + PadLen(n) <= SECTOR && (n + PadLen(n)) % 4 == 0
  {
  }

  lemma LastChunk(body: seq<Byte>, n: nat)
    requires n * SECTOR <= |body| <= (n + 1) * SECTOR
    ensures Chunk(body, n) == body[n * SECTOR..]
  {
  }

  lemma {:induction false} OpsInSlot(body: seq<Byte>, n: nat, slotLen: nat)
    requires n * SECTOR <= slotLen && (n > 0 ==> (n - 1) * SECTOR <= |body|)
    ensures InSlot(Ops(body, n), slotLen)
  {
    hide Chunk, Padded;
    if n > 0 {
      OpsInSlot(body, n - 1, slotLen);
      PaddedFits(Chunk(body, n - 1));
    }
  }

  /** One more sector, or half of one. */
  lemma LogStaysInSlot(body: seq<Byte>, n: nat, slotLen: nat, log: seq<Op>)
    requires n * SECTOR + SECTOR <= slotLen && n * SECTOR <= |body|
    requires
      var c := Padded(Chunk(body, n));
      log == Ops(body, n) + [Erase(n * SECTOR)] || log == Ops(body, n) + [Erase(n * SECTOR)] + [Write(n * SECTOR, c)]
    ensures InSlot(log, slotLen)
  {
    hide Ops, Chunk, Padded, InSlot;
    OpsInSlot(body, n, slotLen);
    PaddedFits(Chunk(body, n));
    var at := n * SECTOR;
    assert at % SECTOR == 0;
    MoreInSlot(Ops(body, n), Erase(at), slotLen);
    MoreInSlot(Ops(body, n) + [Erase(at)], Write(at, Padded(Chunk(body, n))), slotLen);
  }

  lemma MoreInSlot(ops: seq<Op>, op: Op, slotLen: nat)
    requires InSlot(ops, slotLen) && op.at % SECTOR == 0 && op.at + SECTOR <= slotLen
    requires op.Write? ==> |op.data| <= SECTOR
    ensures InSlot(ops + [op], slotLen)
  {
  }

  lemma PaddedFits(c: seq<Byte>)
    requires |c| <= SECTOR
    ensures |Padded(c)| <= SECTOR
  {
    PadFits(|c|);
  }

  // -------------------------------------------------------------------------
  // The upload
  // -------------------------------------------------------------------------

  datatype Accepted = Accepted(written: nat, imageLen: nat, version: seq<Byte>, segments: nat)

  lemma SlotHolds(cells: seq<Byte>, received: seq<Byte>, offset: nat, fill: nat)
    requires offset + fill == |received| <= |cells|
    requires cells[..offset] == received[..offset] && cells[offset..offset + fill] == received[offset..]
    ensures cells[..offset + fill] == received
  {
    assert cells[..offset + fill] == cells[..offset] + cells[offset..offset + fill];
    assert received == received[..offset] + received[offset..];
  }

  class Upload {
    const slot: Slot
    const buf: array<Byte>
    var fill: nat
    var offset: nat
    var written: nat
    var frontChecked: bool
    var scan: Scan
    /** Every byte taken off the socket so far. */
    ghost var received: seq<Byte>

    ghost function SlotLen(): nat {
      slot.cells.Length
    }

    /** What is where: the whole sectors in the slot, the rest in the buffer. */
    ghost predicate Holding()
      reads this, buf, slot, slot.cells
    {
      && buf.Length == SECTOR && buf != slot.cells && SlotLen() % SECTOR == 0 && SlotLen() <= LONGEST_SLOT
      && fill <= SECTOR && offset % SECTOR == 0 && written == offset
      && offset + fill == |received| <= SlotLen()
      && received[..offset] == slot.cells[..offset] && received[offset..] == buf[..fill]
      && slot.log == Ops(received, offset / SECTOR)
    }

    /** Everything but that the buffer has room. */
    ghost predicate Open()
      reads this, buf, slot, slot.cells
    {
      && Holding()
      && ImageScan.Valid(scan) && Bytes(New(SlotLen()), received) == Ok(scan)
      && (frontChecked <==> offset > 0) && (frontChecked ==> FrontPassed(SlotLen(), received))
    }

    /** Between two calls `spare` is never empty. */
    ghost predicate Valid()
      reads this, buf, slot, slot.cells
    {
      Open() && fill < SECTOR
    }

    constructor (slot: Slot)
      requires slot.cells.Length % SECTOR == 0 && slot.cells.Length <= LONGEST_SLOT && slot.log == []
      ensures Valid() && fresh(buf) && this.slot == slot && received == []
    {
      this.slot := slot;
      buf := new Byte[SECTOR](_ => 0);
      fill, offset, written, frontChecked := 0, 0, 0, false;
      scan := New(slot.cells.Length);
      received := [];
    }

    method PadTo(len: nat)
      requires fill <= len <= buf.Length
      modifies buf
      ensures buf[..len] == old(buf[..fill]) + seq(len - fill, _ => ERASED)
    {
      for i := fill to len
        invariant buf[..fill] == old(buf[..fill]) && forall j :: fill <= j < i ==> buf[j] == ERASED
      {
        buf[i] := ERASED;
      }
    }

    /** `flush` once the front has been checked. */
    method WriteOut(fault: Fault) returns (ok: bool)
      requires Holding() && fill > 0 && Sane(fault)
      modifies this`fill, this`offset, this`written, buf, slot`log, slot.cells
      ensures ok <==> fault.NoFault?
      ensures ok && old(slot.Faithful()) ==> slot.Faithful()
      ensures InSlot(slot.log, SlotLen()) && |slot.log| > |old(slot.log)|
      ensures ok ==>
        && fill == 0 && offset == old(offset) + SECTOR && written == |received| <= SlotLen()
        && slot.cells[..written] == received
        && offset % SECTOR == 0 && offset / SECTOR == old(offset) / SECTOR + 1
        && old(offset) / SECTOR * SECTOR <= |received| && slot.log == Ops(received, offset / SECTOR)
    {
      hide Bytes, CheckFront, InSlot, New, Chunk, Slot.Faithful;
      Room(SlotLen(), offset, fill);
      ghost var n := offset / SECTOR;
      var len := fill + PadLen(fill);
      PadFits(fill);
      PadTo(len);
      LastChunk(received, n);
      assert buf[..len] == Padded(Chunk(received, n));
      assert buf[..fill] == old(buf[..fill]);
      ok := slot.StageSector(offset, buf, len, fault);
      LogStaysInSlot(received, n, SlotLen(), slot.log);
      if ok {
        SlotHolds(slot.cells[..], received, offset, fill);
        written := written + fill;
        offset := offset + SECTOR;
        fill := 0;
      }
    }

    /** `flush`: erase and write what is in the buffer, then empty it. */
    method Flush(fault: Fault) returns (e: Option<Error>)
      requires Open() && Sane(fault)
      modifies this`fill, this`offset, this`written, this`frontChecked, buf, slot`log, slot.cells
      ensures old(fill) == 0 ==> e.None? && Open() && fill == 0 && offset == old(offset)
      ensures e.None? && old(fill) > 0 ==>
        && fill == 0 && offset == old(offset) + SECTOR && written == |received| && FrontPassed(SlotLen(), received)
        && written <= SlotLen() && slot.cells[..written] == received
        && old(offset) / SECTOR * SECTOR <= |received| && offset / SECTOR == old(offset) / SECTOR + 1
        && slot.log == Ops(received, offset / SECTOR)
      ensures e.None? && old(fill) == SECTOR ==> Valid()
      ensures InSlot(slot.log, SlotLen()) && |slot.log| >= |old(slot.log)| && (e.Some? ==> old(fill) > 0)
      ensures e.Some? && (fault.NoFault? || slot.log == old(slot.log)) ==>
        slot.log == old(slot.log) && old(offset) == 0 && e == CheckFront(scan)
      ensures slot.log != old(slot.log) ==> FrontPassed(SlotLen(), received)
      ensures fault.NoFault? && old(slot.Faithful()) ==> slot.Faithful()
    {
      hide Bytes, CheckFront, Ops, InSlot, New, Slot.Faithful;
      OpsInSlot(received, offset / SECTOR, SlotLen());
      if fill == 0 {
        return None;
      }
      Room(SlotLen(), offset, fill);
      if !frontChecked {
        e := CheckFront(scan);
        if e.Some? {
          return;
        }
        assert FirstPart(received) == received;
        frontChecked := true;
      }
      assert FrontPassed(SlotLen(), received);
      var ok := WriteOut(fault);
      e := if ok then None else Some(Flash);
    }

    /** The bytes just put in the buffer are the upload's, and are scanned. */
    method Account(n: nat) returns (e: Option<Error>)
      requires Valid() && n <= SECTOR - fill
      modifies this`fill, this`scan, this`received
      ensures received == old(received) + buf[old(fill)..old(fill) + n]
      ensures e.None? ==> Open()
      ensures e.Some? ==> Refuses(SlotLen(), received, e.value)
    {
      hide Bytes, CheckFront, Ops, New, FrontPassed, Push;
      ghost var before := received;
      ghost var bytes := buf[fill..fill + n];
      ScanNext(SlotLen(), before, scan, bytes);
      if offset > 0 {
        FrontStaysPassed(SlotLen(), before, bytes);
      }
      OpsOfMore(before, bytes, offset / SECTOR);
      var from := fill;
      fill := fill + n;
      received := received + bytes;
      var pushed := Push(scan, buf[from..fill]);
      if pushed.Err? {
        return Some(pushed.error);
      }
      scan := pushed.value;
      assert received[..offset] == before[..offset];
      assert received[offset..] == before[offset..] + bytes;
      return None;
    }

    /** `took`: `n` bytes have just been put where `spare` said. Scan first, flash second. */
    method Took(n: nat, fault: Fault) returns (e: Option<Error>)
      requires Valid() && Sane(fault) && n <= SECTOR - fill
      modifies this`fill, this`offset, this`written, this`frontChecked, this`scan, this`received
      modifies buf, slot`log, slot.cells
      ensures received == old(received) + old(buf[fill..fill + n])
      ensures e.None? ==> Valid()
      ensures InSlot(slot.log, SlotLen())
      ensures slot.log != [] ==> FrontPassed(SlotLen(), received) && |received| >= SECTOR
      ensures e.Some? && (fault.NoFault? || slot.log == []) ==> Refuses(SlotLen(), received, e.value)
      ensures |received| > SECTOR || (e.None? && |received| == SECTOR) ==> slot.log != []
      ensures e.Some? && fault.NoFault? ==> slot.log == old(slot.log)
      ensures fault.NoFault? && old(slot.Faithful()) ==> slot.Faithful()
    {
      hide Bytes, CheckFront, Ops, InSlot, New, FrontPassed, Slot.Faithful;
      ghost var before := received;
      OpsInSlot(received, offset / SECTOR, SlotLen());
      if offset > 0 {
        FrontStaysPassed(SlotLen(), before, buf[fill..fill + n]);
      } else {
        OpsOfNone(received);
      }
      e := Account(n);
      if e.None? && fill == SECTOR {
        e := Flush(fault);
      }
    }

    /** Hashes the slot back out of the flash, through the buffer. */
    method VerifyFlash(end: nat, digest: seq<Byte>, sha: seq<Byte> -> seq<Byte>) returns (ok: bool)
      requires buf.Length == SECTOR && buf != slot.cells && end <= SlotLen() && end % 4 == 0
      modifies buf
      ensures ok <==> sha(slot.cells[..end]) == digest
    {
      var hashed: seq<Byte> := [];
      var at := 0;
      while at < end
        invariant at <= end && at % 4 == 0 && hashed == slot.cells[..at]
      {
        var n := if end - at < SECTOR then end - at else SECTOR;
        assert n % 4 == 0;
        for i := 0 to n
          invariant forall j :: 0 <= j < i ==> buf[j] == slot.cells[at + j]
        {
          buf[i] := slot.cells[at + i];
        }
        assert buf[..n] == slot.cells[at..at + n];
        hashed := hashed + buf[..n];
        at := at + n;
      }
      ok := sha(hashed) == digest;
    }

    /** The last `flush`. */
    method WriteTail(fault: Fault) returns (e: Option<Error>)
      requires Valid() && Sane(fault)
      modifies this`fill, this`offset, this`written, this`frontChecked, buf, slot`log, slot.cells
      ensures InSlot(slot.log, SlotLen())
      ensures slot.log != [] ==> FrontPassed(SlotLen(), received)
      ensures e.None? ==>
        && FrontPassed(SlotLen(), received) && written == |received| <= SlotLen() && slot.cells[..written] == received
        && slot.log == Ops(received, Sectors(|received|))
      ensures e.Some? && (fault.NoFault? || slot.log == []) ==> |received| <= SECTOR && e == CheckFront(scan)
      ensures e.None? && received != [] ==> slot.log != []
      ensures e.Some? && fault.NoFault? ==> slot.log == []
      ensures fault.NoFault? && old(slot.Faithful()) ==> slot.Faithful()
    {
      hide Bytes, CheckFront, Ops, InSlot, FrontPassed, New, Slot.Faithful;
      OpsOfNone(received);
      FrontOfNone(SlotLen());
      ghost var was := offset;
      ghost var n := was / SECTOR;
      assert n * SECTOR == was;
      if fill == 0 {
        assert received[..offset] == received;
        SectorsAre(|received|, n);
      } else {
        SectorsAre(|received|, n + 1);
      }
      e := Flush(fault);
    }

    /** All of the body is in the slot, and scanned. */
    ghost predicate Written()
      reads this, slot, slot.cells
    {
      && buf.Length == SECTOR && buf != slot.cells
      && ImageScan.Valid(scan) && Bytes(New(SlotLen()), received) == Ok(scan)
      && written == |received| <= SlotLen() <= LONGEST_SLOT && slot.cells[..written] == received
      && slot.log == Ops(received, Sectors(|received|)) && FrontPassed(SlotLen(), received)
    }

    /** Every check that is left, the last of them on what landed. */
    method Judge(sha: seq<Byte> -> seq<Byte>) returns (r: Result<Accepted, Error>)
      requires Written()
      modifies buf
      ensures r.Ok? ==> Landed(r.value, sha) && FrontIsOurs(received)
      ensures Answers(r, |received|, Verdict(SlotLen(), received, sha))
    {
      hide FrontIsOurs, Bytes, CheckFront, Ops, FrontPassed, ImageScan.Finish, Verdict, New, Sectors;
      VerdictAtTheEnd(SlotLen(), received, scan, sha);
      var image := ImageScan.Finish(scan, sha);
      if image.Err? {
        return Err(image.error);
      }
      AcceptedMeans(SlotLen(), received, sha);
      var end := image.value.len - HASH_LEN;
      SameSlice(slot.cells[..], received, written, 0, end);
      SameSlice(slot.cells[..], received, written, end, image.value.len);
      Quarters(end);
      var ok := VerifyFlash(end, image.value.digest, sha);
      if !ok {
        return Err(BadSha256);
      }
      return Ok(Accepted(written, image.value.len, image.value.version, image.value.segments));
    }

    /** `finish`: write the tail, run every check that is left, and hash what landed. */
    method Finish(sha: seq<Byte> -> seq<Byte>, fault: Fault) returns (r: Result<Accepted, Error>)
      requires Valid() && Sane(fault)
      modifies this`fill, this`offset, this`written, this`frontChecked, buf, slot`log, slot.cells
      ensures InSlot(slot.log, SlotLen())
      ensures slot.log != [] ==> FrontPassed(SlotLen(), received)
      ensures received != [] && FrontPassed(SlotLen(), received) ==> slot.log != []
      ensures r.Ok? ==> Landed(r.value, sha) && FrontIsOurs(received)
      ensures r.Ok? || fault.NoFault? ==> Answers(r, |received|, Verdict(SlotLen(), received, sha))
      ensures fault.NoFault? ==>
        slot.log == if FrontPassed(SlotLen(), received) then Ops(received, Sectors(|received|)) else []
      ensures fault.NoFault? && old(slot.Faithful()) ==> slot.Faithful()
    {
      hide FrontIsOurs, Bytes, CheckFront, Ops, InSlot, FrontPassed, Verdict, New, Sectors, Landed, Slot.Faithful;
      VerdictAtTheEnd(SlotLen(), received, scan, sha);
      var e := WriteTail(fault);
      if e.Some? {
        return Err(e.value);
      }
      label written:
      r := Judge(sha);
      SameFlash@written();
    }

    twostate lemma SameFlash()
      requires buf != slot.cells && unchanged(slot) && unchanged(slot.cells)
      ensures old(slot.Faithful()) ==> slot.Faithful()
    {
    }

    /** Where an upload is between two calls. */
    lemma WhereItIs()
      requires Valid()
      ensures |received| <= SlotLen() && SlotLen() % SECTOR == 0 && fill == |received| % SECTOR
      ensures slot.log == Ops(received, |received| / SECTOR) && Bytes(New(SlotLen()), received).Ok?
    {
      hide Bytes, Ops, FrontPassed;
      Parts(offset, fill);
    }

    /** The socket gives what it has, up to the room there is. */
    method ReadInto(body: seq<Byte>, k: nat, has: nat) returns (n: nat)
      requires Valid() && k < |body| && has > 0
      modifies buf
      ensures 0 < n <= SECTOR - fill && k + n <= |body|
      ensures Valid() && buf[fill..fill + n] == body[k..k + n]
      ensures old(slot.Faithful()) ==> slot.Faithful()
    {
      hide Bytes, Ops, FrontPassed, Slot.Faithful;
      n := if has < SECTOR - fill then has else SECTOR - fill;
      if |body| - k < n {
        n := |body| - k;
      }
      for i := 0 to n
        invariant buf[..fill] == old(buf[..fill]) && buf[fill..fill + i] == body[k..k + i]
      {
        assert body[k..k + i + 1] == body[k..k + i] + [body[k + i]];
        ghost var before := buf[fill..fill + i];
        buf[fill + i] := body[k + i];
        assert buf[fill..fill + i + 1] == before + [buf[fill + i]];
      }
    }

    /** One turn of that loop. If these bytes are refused, what has been asked of the flash, and the answer, are what
        they are however the body is cut. */
    method Pull(body: seq<Byte>, k: nat, has: nat, fault: Fault, ghost sha: seq<Byte> -> seq<Byte>)
      returns (n: nat, e: Option<Error>)
      requires Valid() && k < |body| && received == body[..k] && has > 0 && Sane(fault)
      requires slot.log != [] ==> FrontPassed(SlotLen(), body)
      modifies this`fill, this`offset, this`written, this`frontChecked, this`scan, this`received
      modifies buf, slot`log, slot.cells
      ensures 0 < n && k + n <= |body| && received == body[..k + n]
      ensures e.None? ==> Valid()
      ensures InSlot(slot.log, SlotLen()) && (slot.log != [] ==> FrontPassed(SlotLen(), body))
      ensures e.Some? && |body| <= SlotLen() && FrontPassed(SlotLen(), body) ==> slot.log != []
      ensures e.Some? && |body| <= SlotLen() && fault.NoFault? ==> Verdict(SlotLen(), body, sha) == Err(e.value)
      ensures e.Some? && fault.NoFault? ==> slot.log == OpsAsked(SlotLen(), body)
      ensures fault.NoFault? && old(slot.Faithful()) ==> slot.Faithful()
    {
      hide Valid, OpsAsked, Bytes, CheckFront, Ops, InSlot, FrontPassed, Verdict, New, Refuses, Slot.Faithful;
      n := ReadInto(body, k, has);
      ghost var next := k + n;
      assert body[..k] + body[k..next] == body[..next];
      WhereItIs();
      OpsOfMore(body[..k], body[k..], k / SECTOR);
      assert body[..k] + body[k..] == body;
      e := Took(n, fault);
      assert body[..next] + body[next..] == body;
      if slot.log != [] {
        FrontStaysPassed(SlotLen(), body[..next], body[next..]);
      }
      if e.Some? {
        if slot.log == [] && |body| <= SlotLen() {
          RefusedBeforeTheFirst(SlotLen(), body[..next], body[next..], e.value);
        }
        if fault.NoFault? {
          RefusedOps(SlotLen(), body, k, next, e.value, slot.log);
          if |body| <= SlotLen() {
            RefusalIsTheVerdict(SlotLen(), body[..next], body[next..], e.value, sha);
          }
        }
      }
    }

    /** The loop of the request handler: read into `spare`, account for what came, until there is no
        more. `sizes` is how much the socket has to give each time, `faults` what the flash does. */
    method Receive(body: seq<Byte>, sizes: nat -> nat, faults: nat -> Fault, sha: seq<Byte> -> seq<Byte>)
      returns (r: Result<Accepted, Error>)
      requires Valid() && received == [] && slot.log == [] && forall i :: Sane(faults(i))
      modifies this`fill, this`offset, this`written, this`frontChecked, this`scan, this`received
      modifies buf, slot`log, slot.cells
      ensures InSlot(slot.log, SlotLen())
      ensures slot.log != [] ==> FrontPassed(SlotLen(), body)
      ensures |body| <= SlotLen() && body != [] && FrontPassed(SlotLen(), body) ==> slot.log != []
      ensures r.Ok? ==> received == body && Landed(r.value, sha) && Answers(r, |body|, Verdict(SlotLen(), body, sha))
      ensures r.Ok? ==> FrontIsOurs(body)
      ensures |body| > SlotLen() ==> r.Err?
      ensures |body| <= SlotLen() && (forall i :: faults(i).NoFault?) ==>
        Answers(r, |body|, Verdict(SlotLen(), body, sha))
      ensures (forall i :: faults(i).NoFault?) ==> slot.log == OpsAsked(SlotLen(), body)
      ensures (forall i :: faults(i).NoFault?) && old(slot.Faithful()) ==>
        slot.cells[..] == AllPerformed(slot.was, OpsAsked(SlotLen(), body))
    {
      hide Valid, FrontIsOurs, AllPerformed, OpsAsked, Bytes, CheckFront, Ops, InSlot, FrontPassed, Verdict, New, Landed;
      NoneInSlot(SlotLen());
      var k, turn := 0, 0;
      while k < |body|
        invariant k <= |body| && Valid() && received == body[..k]
        invariant InSlot(slot.log, SlotLen()) && (slot.log != [] ==> FrontPassed(SlotLen(), body))
        invariant (forall i :: faults(i).NoFault?) && old(slot.Faithful()) ==> slot.Faithful()
        decreases |body| - k
      {
        var n, e := Pull(body, k, if sizes(turn) == 0 then 1 else sizes(turn), faults(turn), sha);
        k := k + n;
        if e.Some? {
          return Err(e.value);
        }
        turn := turn + 1;
      }
      assert body[..k] == body;
      WhereItIs();
      OpsAskedAtTheEnd(SlotLen(), body);
      r := Finish(sha, faults(turn));
    }

    /** What is in the slot when the upload is accepted. */
    ghost predicate Landed(a: Accepted, sha: seq<Byte> -> seq<Byte>)
      reads this, slot, slot.cells
    {
      && a.written == written == |received| <= SlotLen() && slot.cells[..written] == received
      && slot.log == Ops(received, Sectors(|received|))
      && HASH_LEN <= a.imageLen <= written
      && sha(slot.cells[..a.imageLen - HASH_LEN]) == slot.cells[a.imageLen - HASH_LEN..a.imageLen]
    }
  }

  lemma FrontOfNone(slotLen: nat)
    ensures FrontPassed(slotLen, [])
  {
    BytesOfNone(New(slotLen));
  }

  lemma VerdictAtTheEnd(slotLen: nat, body: seq<Byte>, scan: Scan, sha: seq<Byte> -> seq<Byte>)
    requires ImageScan.Valid(scan) && Bytes(New(slotLen), body) == Ok(scan)
    ensures FrontPassed(slotLen, body) ==> Verdict(slotLen, body, sha) == ImageScan.Finish(scan, sha)
    ensures |body| <= SECTOR && CheckFront(scan).Some? ==>
      !FrontPassed(slotLen, body) && Verdict(slotLen, body, sha) == Err(CheckFront(scan).value)
  {
    hide Bytes, CheckFront, ImageScan.Finish;
  }

  lemma Quarters(end: nat)
    requires (end + HASH_LEN) % 16 == 0
    ensures end % 4 == 0
  {
  }

  lemma SectorsAre(n: nat, k: nat)
    requires n <= k * SECTOR && (k > 0 ==> (k - 1) * SECTOR < n)
    ensures Sectors(n) == k
  {
  }

  lemma SameSlice(a: seq<Byte>, b: seq<Byte>, n: nat, lo: nat, hi: nat)
    requires lo <= hi <= n <= |a| && a[..n] == b
    ensures a[lo..hi] == b[lo..hi]
  {
    forall i | 0 <= i < hi - lo ensures a[lo..hi][i] == b[lo..hi][i] {
      assert a[..n][lo + i] == b[lo + i];
    }
  }

  lemma NoneInSlot(slotLen: nat)
    ensures InSlot([], slotLen)
  {
  }

  /** The reply to an upload of `n` bytes with this verdict. */
  predicate Answers(r: Result<Accepted, Error>, n: nat, verdict: Result<Image, Error>) {
    match verdict
    case Ok(image) => r == Ok(Accepted(n, image.len, image.version, image.segments))
    case Err(e) => r == Err(e)
  }

  lemma OpsOfNone(body: seq<Byte>)
    ensures Ops(body, 0) == []
  {
  }

  /** A piece pushed on a scan of what came before. */
  lemma ScanNext(slotLen: nat, before: seq<Byte>, scan: Scan, bytes: seq<Byte>)
    requires ImageScan.Valid(scan) && Bytes(New(slotLen), before) == Ok(scan)
    ensures scan.slotLen == slotLen
    ensures
      match Push(scan, bytes)
      case Ok(t) => Bytes(New(slotLen), before + bytes) == Ok(t) && |before + bytes| <= slotLen
      case Err(e) => Bytes(New(slotLen), before + bytes) == Err(e) || (|before + bytes| > slotLen && e == TooLarge)
  {
    hide Bytes, Feed;
    BytesCount(New(slotLen), before);
    BytesCat(New(slotLen), before, bytes);
    FeedIsBytes(scan, bytes);
  }
}
