/** The page's MD5 against RFC 1321.

    The page keeps its four registers in a loop that rotates them and computes which word and which
    shift each step takes; the RFC spells out four rounds of sixteen steps that each name their
    registers. The table of sines is a parameter of both. A JavaScript number that has been through a
    bitwise operator is taken modulo 2^32, which is all that is ever done with one here. */
module Md5 {
  import opened Common
  import opened Words

  type Byte = bv8

  datatype Regs = Regs(a: Word, b: Word, c: Word, d: Word)

  /** The sixteen words of a block, and the 64 of the table. */
  type Block = s: seq<Word> | |s| == 16 witness seq(16, _ => 0)
  type Table = s: seq<Word> | |s| == 64 witness seq(64, _ => 0)

  type Nibble = n: nat | n < 16
  type Shift = n: nat | 0 < n < 32 witness 1

  // -------------------------------------------------------------------------
  // RFC 1321
  // -------------------------------------------------------------------------

  /** Section 3.1: as few zeros as bring the length to eight less than a multiple of 64. */
  function ZerosAfter(n: nat): (k: nat)
    ensures (n + 1 + k) % 64 == 56
  {
    var r := (n + 1) % 64;
    if r <= 56 then 56 - r else 120 - r
  }

  lemma NoFewerZeros(n: nat, j: nat)
    requires (n + 1 + j) % 64 == 56
    ensures j >= ZerosAfter(n)
  {
    var q, r, p := (n + 1) / 64, (n + 1) % 64, (n + 1 + j) / 64;
    assert n + 1 == 64 * q + r && n + 1 + j == 64 * p + 56;
    assert r + j == 64 * (p - q) + 56;
  }

  /** The byte `8 * i` bits up. */
  function ByteOf(w: Word, i: nat): Byte
    requires i < 4
  {
    var shifted := if i == 0 then w else if i == 1 then w >> 8 else if i == 2 then w >> 16 else w >> 24;
    (shifted & 0xFF) as Byte
  }

  function LeBytes(w: Word): seq<Byte> {
    [ByteOf(w, 0), ByteOf(w, 1), ByteOf(w, 2), ByteOf(w, 3)]
  }

  const TWO_32: nat := 0x1_0000_0000
  const TWO_64: nat := 0x1_0000_0000_0000_0000

  function ToWord(n: nat): Word
    requires n < TWO_32
  {
    n as Word
  }

  /** Section 3.2: the length in bits modulo 2^64, as two words, the low one first. */
  function LengthBytes(n: nat): seq<Byte> {
    var bits := 8 * n % TWO_64;
    LeBytes(ToWord(bits % TWO_32)) + LeBytes(ToWord(bits / TWO_32))
  }

  function Padded(m: seq<Byte>): seq<Byte> {
    m + [0x80] + seq(ZerosAfter(|m|), _ => 0) + LengthBytes(|m|)
  }

  function Le32(b0: Byte, b1: Byte, b2: Byte, b3: Byte): Word {
    (b0 as Word) | ((b1 as Word) << 8) | ((b2 as Word) << 16) | ((b3 as Word) << 24)
  }

  function WordAt(p: seq<Byte>, at: nat): Word
    requires at + 4 <= |p|
  {
    Le32(p[at], p[at + 1], p[at + 2], p[at + 3])
  }

  function BlockAt(p: seq<Byte>, at: nat): Block
    requires at + 64 <= |p|
  {
    seq(16, i requires 0 <= i < 16 => WordAt(p, at + 4 * i))
  }

  /** Modulo 2^32. */
  function Add(x: Word, y: Word): Word { x + y }

  function F(x: Word, y: Word, z: Word): Word { (x & y) | (!x & z) }
  function G(x: Word, y: Word, z: Word): Word { (x & z) | (y & !z) }
  function H(x: Word, y: Word, z: Word): Word { x ^ y ^ z }
  function I(x: Word, y: Word, z: Word): Word { y ^ (x | !z) }

  function Mix(round: nat, x: Word, y: Word, z: Word): Word {
    if round == 0 then F(x, y, z) else if round == 1 then G(x, y, z) else if round == 2 then H(x, y, z) else I(x, y, z)
  }

  /** Section 3.4: which word each step of the four rounds takes. */
  const WORDS: seq<seq<Nibble>> :=
    [[0, 1, 2, 3, 4, 5, 6, 7, 8, 9, 10, 11, 12, 13, 14, 15],
     [1, 6, 11, 0, 5, 10, 15, 4, 9, 14, 3, 8, 13, 2, 7, 12],
     [5, 8, 11, 14, 1, 4, 7, 10, 13, 0, 3, 6, 9, 12, 15, 2],
     [0, 7, 14, 5, 12, 3, 10, 1, 8, 15, 6, 13, 4, 11, 2, 9]]

  /** And how far it rotates; the four repeat within the round. */
  const ROUND_SHIFTS: seq<seq<Shift>> := [[7, 12, 17, 22], [5, 9, 14, 20], [4, 11, 16, 23], [6, 10, 15, 21]]

  function Rotl(x: Word, s: Shift): Word {
    x.RotateLeft(s)
  }

  /** What a step makes of its first register: `y + ((x + mix(y, z, w) + X[k] + T[i]) <<< s)`. */
  function Turn(i: nat, x: Word, y: Word, z: Word, w: Word, block: Block, t: Table): Word
    requires i < 64
  {
    Add(y, Rotl(Add(Add(Add(x, Mix(i / 16, y, z, w)), block[WORDS[i / 16][i % 16]]), t[i]), ROUND_SHIFTS[i / 16][i % 4]))
  }

  /** The steps take the registers in the orders ABCD, DABC, CDAB and BCDA in turn. */
  function RfcStep(r: Regs, i: nat, block: Block, t: Table): Regs
    requires i < 64
  {
    if i % 4 == 0 then r.(a := Turn(i, r.a, r.b, r.c, r.d, block, t))
    else if i % 4 == 1 then r.(d := Turn(i, r.d, r.a, r.b, r.c, block, t))
    else if i % 4 == 2 then r.(c := Turn(i, r.c, r.d, r.a, r.b, block, t))
    else r.(b := Turn(i, r.b, r.c, r.d, r.a, block, t))
  }

  function RfcSteps(r: Regs, n: nat, block: Block, t: Table): Regs
    requires n <= 64
  {
    if n == 0 then r else RfcStep(RfcSteps(r, n - 1, block, t), n - 1, block, t)
  }

  function Plus(r: Regs, s: Regs): Regs {
    Regs(Add(r.a, s.a), Add(r.b, s.b), Add(r.c, s.c), Add(r.d, s.d))
  }

  const INITIAL: Regs := Regs(0x6745_2301, 0xEFCD_AB89, 0x98BA_DCFE, 0x1032_5476)

  /** Section 3.3: the registers begin as these bytes, low-order first. */
  lemma InitialIs()
    ensures LeBytes(INITIAL.a) == [0x01, 0x23, 0x45, 0x67] && LeBytes(INITIAL.b) == [0x89, 0xAB, 0xCD, 0xEF]
    ensures LeBytes(INITIAL.c) == [0xFE, 0xDC, 0xBA, 0x98] && LeBytes(INITIAL.d) == [0x76, 0x54, 0x32, 0x10]
  {
  }

  /** Section 2: a word is its four bytes, low-order first, and is read back from them. */
  lemma WordRoundTrip(w: Word)
    ensures var bs := LeBytes(w);
      |bs| == 4 && Le32(bs[0], bs[1], bs[2], bs[3]) == w
  {
    hide Le32;
    FromItsBytes(w);
  }

  lemma FromItsBytes(w: Word)
    ensures Le32((w & 0xFF) as Byte, ((w >> 8) & 0xFF) as Byte, ((w >> 16) & 0xFF) as Byte, ((w >> 24) & 0xFF) as Byte) == w
  {
  }

  lemma LowByteFirst(b: Byte)
    ensures Le32(b, 0, 0, 0) == b as Word
    ensures Le32(0, 0, 0, b) == (b as Word) << 24
  {
  }

  function RfcBlocks(p: seq<Byte>, n: nat, t: Table): Regs
    requires 64 * n <= |p|
  {
    if n == 0 then INITIAL
    else
      var r := RfcBlocks(p, n - 1, t);
      Plus(r, RfcSteps(r, 64, BlockAt(p, 64 * (n - 1)), t))
  }

  function Digit(n: nat): char
    requires n < 16
  {
    if n < 10 then '0' + n as char else 'a' + (n - 10) as char
  }

  lemma DigitIs(n: nat)
    requires n < 16
    ensures Digit(n) == "0123456789abcdef"[n]
  {
  }

  function HexByte(b: Byte): string {
    [Digit(b as nat / 16), Digit(b as nat % 16)]
  }

  function Hex(bs: seq<Byte>): string {
    if bs == [] then "" else Hex(bs[..|bs| - 1]) + HexByte(Last(bs))
  }

  /** Section 3.5: the registers, low-order bytes first. */
  function Rfc1321(m: seq<Byte>, t: Table): string {
    var p := Padded(m);
    var r := RfcBlocks(p, |p| / 64, t);
    Hex(LeBytes(r.a) + LeBytes(r.b) + LeBytes(r.c) + LeBytes(r.d))
  }

  // -------------------------------------------------------------------------
  // How long the page's buffer is
  // -------------------------------------------------------------------------

  /** What a 32-bit signed operator makes of a whole number. */
  function ToInt32(n: int): int {
    var r := n % TWO_32;
    if r >= 0x8000_0000 then r - TWO_32 else r
  }

  function Shr6(n: int): int {
    ToInt32(n) / 64
  }

  function Shl6(n: int): int {
    ToInt32(ToInt32(n) * 64)
  }

  /** The length the page asks for. */
  function AskedLen(n: nat): int {
    Shl6(Shr6(n + 8) + 1)
  }

  /** The longest input the page can hash. */
  const LONGEST: nat := 0x7FFF_FFB7

  lemma ShortAskedLen(n: nat)
    requires n <= LONGEST
    ensures AskedLen(n) == n + 1 + ZerosAfter(n) + 8
  {
    hide ZerosAfter;
    var q := (n + 8) / 64;
    assert q <= 0x1FF_FFFE;
    assert Shr6(n + 8) == q;
    assert Shl6(q + 1) == 64 * (q + 1);
    PaddedLen(n);
  }

  lemma PaddedLen(n: nat)
    ensures n + 1 + ZerosAfter(n) + 8 == 64 * ((n + 8) / 64 + 1)
  {
    assert (n + 1) % 64 <= 56 <==> (n + 8) % 64 >= 7;
  }

  lemma Multiples(k: int)
    ensures Shl6(k) % 64 == 0 && Shl6(k) < 0x8000_0000
  {
    var m := ToInt32(k) * 64;
    assert m % TWO_32 == m - TWO_32 * (m / TWO_32);
  }

  lemma JustTooLong(n: nat)
    requires LONGEST < n < 0x8000_0000 - 8
    ensures AskedLen(n) == -0x8000_0000
  {
    var q := (n + 8) / 64;
    assert q == 0x1FF_FFFF;
    assert Shr6(n + 8) == q;
  }

  lemma LongAskedLen(n: nat)
    requires n > LONGEST
    ensures AskedLen(n) < n
  {
    hide Shl6, Shr6;
    if n < 0x8000_0000 - 8 {
      JustTooLong(n);
    } else {
      Multiples(Shr6(n + 8) + 1);
    }
  }

  /** The page's buffer holds the message and its padding exactly up to `LONGEST` bytes; for any longer
      message it is too short to take even the message, or of negative length. */
  lemma AskedLenIsEnoughExactlyWhen(n: nat)
    ensures n <= LONGEST <==> AskedLen(n) >= n + 9
    ensures n > LONGEST ==> AskedLen(n) < n
    ensures n <= LONGEST ==> AskedLen(n) == n + 1 + ZerosAfter(n) + 8
  {
    hide AskedLen, ZerosAfter;
    if n <= LONGEST { ShortAskedLen(n); } else { LongAskedLen(n); }
  }

  // -------------------------------------------------------------------------
  // The page's steps
  // -------------------------------------------------------------------------

  const SHIFTS: seq<Shift> := [7, 12, 17, 22, 5, 9, 14, 20, 4, 11, 16, 23, 6, 10, 15, 21]

  function PageMix(i: nat, b: Word, c: Word, d: Word): Word {
    if i < 16 then (b & c) | (!b & d)
    else if i < 32 then (d & b) | (!d & c)
    else if i < 48 then b ^ c ^ d
    else c ^ (b | !d)
  }

  function PageWord(i: nat): nat {
    if i < 16 then i else if i < 32 then (5 * i + 1) % 16 else if i < 48 then (3 * i + 5) % 16 else 7 * i % 16
  }

  function PageShift(i: nat): Shift
    requires i < 64
  {
    SHIFTS[i / 16 * 4 + i % 4]
  }

  function PageRotl(x: Word, s: Shift): Word {
    (x << s) | (x >> (32 - s))
  }

  lemma MixAgrees(i: nat, b: Word, c: Word, d: Word)
    requires i < 64
    ensures PageMix(i, b, c, d) == Mix(i / 16, b, c, d)
  {
    if 16 <= i < 32 {
      GAgrees(b, c, d);
    }
  }

  lemma GAgrees(b: Word, c: Word, d: Word)
    ensures (d & b) | (!d & c) == G(b, c, d)
  {
  }

  predicate Below16(j: nat) {
    || j == 0 || j == 1 || j == 2 || j == 3 || j == 4 || j == 5 || j == 6 || j == 7
    || j == 8 || j == 9 || j == 10 || j == 11 || j == 12 || j == 13 || j == 14 || j == 15
  }

  lemma FirstRoundWord(j: nat)
    requires Below16(j)
    ensures WORDS[0][j] == j
  {
  }

  lemma SecondRoundWord(j: nat)
    requires Below16(j)
    ensures WORDS[1][j] == (5 * (16 + j) + 1) % 16
  {
  }

  lemma ThirdRoundWord(j: nat)
    requires Below16(j)
    ensures WORDS[2][j] == (3 * (32 + j) + 5) % 16
  {
  }

  lemma FourthRoundWord(j: nat)
    requires Below16(j)
    ensures WORDS[3][j] == 7 * (48 + j) % 16
  {
  }

  lemma WordAgrees(i: nat)
    requires i < 64
    ensures PageWord(i) == WORDS[i / 16][i % 16]
  {
    var j := i % 16;
    assert Below16(j);
    hide Below16;
    if i < 16 { FirstRoundWord(j); }
    else if i < 32 { SecondRoundWord(j); }
    else if i < 48 { ThirdRoundWord(j); }
    else { FourthRoundWord(j); }
  }

  lemma ShiftAgrees(i: nat)
    requires i < 64
    ensures PageShift(i) == ROUND_SHIFTS[i / 16][i % 4]
  {
    var j, q := i % 4, i / 16;
    assert j == 0 || j == 1 || j == 2 || j == 3;
    assert q == 0 || q == 1 || q == 2 || q == 3;
  }

  lemma RotlAgrees(x: Word, s: Shift)
    requires s in SHIFTS
    ensures PageRotl(x, s) == Rotl(x, s)
  {
    hide PageRotl, Rotl;
    if s == 4 || s == 5 || s == 6 || s == 7 {
      FirstRotlAgrees(x, s);
    } else if s == 9 || s == 10 || s == 11 || s == 12 {
      SecondRotlAgrees(x, s);
    } else if s == 14 || s == 15 || s == 16 || s == 17 {
      ThirdRotlAgrees(x, s);
    } else {
      FourthRotlAgrees(x, s);
    }
  }

  lemma FirstRotlAgrees(x: Word, s: Shift)
    requires s == 4 || s == 5 || s == 6 || s == 7
    ensures PageRotl(x, s) == Rotl(x, s)
  {
    if s == 4 { assert PageRotl(x, 4) == (x << 4) | (x >> 28); assert Rotl(x, 4) == x.RotateLeft(4); }
    if s == 5 { assert PageRotl(x, 5) == (x << 5) | (x >> 27); assert Rotl(x, 5) == x.RotateLeft(5); }
    if s == 6 { assert PageRotl(x, 6) == (x << 6) | (x >> 26); assert Rotl(x, 6) == x.RotateLeft(6); }
    if s == 7 { assert PageRotl(x, 7) == (x << 7) | (x >> 25); assert Rotl(x, 7) == x.RotateLeft(7); }
  }

  lemma SecondRotlAgrees(x: Word, s: Shift)
    requires s == 9 || s == 10 || s == 11 || s == 12
    ensures PageRotl(x, s) == Rotl(x, s)
  {
    if s == 9 { assert PageRotl(x, 9) == (x << 9) | (x >> 23); assert Rotl(x, 9) == x.RotateLeft(9); }
    if s == 10 { assert PageRotl(x, 10) == (x << 10) | (x >> 22); assert Rotl(x, 10) == x.RotateLeft(10); }
    if s == 11 { assert PageRotl(x, 11) == (x << 11) | (x >> 21); assert Rotl(x, 11) == x.RotateLeft(11); }
    if s == 12 { assert PageRotl(x, 12) == (x << 12) | (x >> 20); assert Rotl(x, 12) == x.RotateLeft(12); }
  }

  lemma ThirdRotlAgrees(x: Word, s: Shift)
    requires s == 14 || s == 15 || s == 16 || s == 17
    ensures PageRotl(x, s) == Rotl(x, s)
  {
    if s == 14 { assert PageRotl(x, 14) == (x << 14) | (x >> 18); assert Rotl(x, 14) == x.RotateLeft(14); }
    if s == 15 { assert PageRotl(x, 15) == (x << 15) | (x >> 17); assert Rotl(x, 15) == x.RotateLeft(15); }
    if s == 16 { assert PageRotl(x, 16) == (x << 16) | (x >> 16); assert Rotl(x, 16) == x.RotateLeft(16); }
    if s == 17 { assert PageRotl(x, 17) == (x << 17) | (x >> 15); assert Rotl(x, 17) == x.RotateLeft(17); }
  }

  lemma FourthRotlAgrees(x: Word, s: Shift)
    requires s == 20 || s == 21 || s == 22 || s == 23
    ensures PageRotl(x, s) == Rotl(x, s)
  {
    if s == 20 { assert PageRotl(x, 20) == (x << 20) | (x >> 12); assert Rotl(x, 20) == x.RotateLeft(20); }
    if s == 21 { assert PageRotl(x, 21) == (x << 21) | (x >> 11); assert Rotl(x, 21) == x.RotateLeft(21); }
    if s == 22 { assert PageRotl(x, 22) == (x << 22) | (x >> 10); assert Rotl(x, 22) == x.RotateLeft(22); }
    if s == 23 { assert PageRotl(x, 23) == (x << 23) | (x >> 9); assert Rotl(x, 23) == x.RotateLeft(23); }
  }

  function PageTurn(i: nat, a: Word, b: Word, c: Word, d: Word, block: Block, t: Table): Word
    requires i < 64
  {
    var x := Add(Add(Add(a, PageMix(i, b, c, d)), t[i]), block[PageWord(i)]);
    Add(b, PageRotl(x, PageShift(i)))
  }

  /** One pass of the inner loop: the registers move along. */
  function PageStep(r: Regs, i: nat, block: Block, t: Table): Regs
    requires i < 64
  {
    Regs(r.d, PageTurn(i, r.a, r.b, r.c, r.d, block, t), r.b, r.c)
  }

  /** The RFC's registers in the places the page has them after `q` steps. */
  function Moved(r: Regs, q: nat): Regs {
    if q == 0 then r
    else if q == 1 then Regs(r.d, r.a, r.b, r.c)
    else if q == 2 then Regs(r.c, r.d, r.a, r.b)
    else Regs(r.b, r.c, r.d, r.a)
  }

  lemma AddIs(x: Word, y: Word)
    ensures Add(x, y) == x + y
  {
  }

  lemma SameSum(a: Word, b: Word, z: Word)
    requires a == b
    ensures a + z == b + z
  {
  }

  lemma Swap(x: Word, y: Word, z: Word)
    ensures x + y + z == x + z + y
  {
  }

  lemma SwapAt(x: Word, y: Word, z: Word, xy: Word, xz: Word, l: Word, r: Word)
    ensures xy == x + y && xz == x + z && l == xy + z && r == xz + y ==> l == r
  {
    if xy == x + y && xz == x + z && l == xy + z && r == xz + y {
      calc {
        l;
        xy + z;
        { SameSum(xy, x + y, z); }
        x + y + z;
        { Swap(x, y, z); }
        x + z + y;
        { SameSum(xz, x + z, y); }
        xz + y;
        r;
      }
    }
  }

  lemma AddSwap(x: Word, y: Word, z: Word)
    ensures Add(Add(x, y), z) == Add(Add(x, z), y)
  {
    hide *;
    AddIs(x, y);
    AddIs(Add(x, y), z);
    AddIs(x, z);
    AddIs(Add(x, z), y);
    SwapAt(x, y, z, Add(x, y), Add(x, z), Add(Add(x, y), z), Add(Add(x, z), y));
  }

  lemma TurnAgrees(i: nat, x: Word, y: Word, z: Word, w: Word, block: Block, t: Table)
    requires i < 64
    ensures Turn(i, x, y, z, w, block, t) == PageTurn(i, x, y, z, w, block, t)
  {
    hide Mix, PageMix, Rotl, PageRotl, PageShift, PageWord, Add;
    MixAgrees(i, y, z, w);
    WordAgrees(i);
    ShiftAgrees(i);
    ShiftIsListed(i);
    var mixed := Add(x, PageMix(i, y, z, w));
    AddSwap(mixed, block[PageWord(i)], t[i]);
    RotlAgrees(Add(Add(mixed, t[i]), block[PageWord(i)]), PageShift(i));
  }

  lemma ShiftIsListed(i: nat)
    requires i < 64
    ensures PageShift(i) in SHIFTS
  {
  }

  /** A step of the page from the RFC's registers, moved along, is the RFC's step, moved along once more. */
  lemma StepAgrees(r: Regs, i: nat, block: Block, t: Table)
    requires i < 64
    ensures PageStep(Moved(r, i % 4), i, block, t) == Moved(RfcStep(r, i, block, t), (i + 1) % 4)
  {
    hide Turn, PageTurn;
    if i % 4 == 0 {
      TurnAgrees(i, r.a, r.b, r.c, r.d, block, t);
    } else if i % 4 == 1 {
      TurnAgrees(i, r.d, r.a, r.b, r.c, block, t);
    } else if i % 4 == 2 {
      TurnAgrees(i, r.c, r.d, r.a, r.b, block, t);
    } else {
      TurnAgrees(i, r.b, r.c, r.d, r.a, block, t);
    }
  }

  // -------------------------------------------------------------------------
  // The page's code
  // -------------------------------------------------------------------------

  /** A number below 256 the way `toString(16)` writes it. */
  function ToHex(n: nat): (s: string)
    ensures |s| > 0
  {
    if n < 16 then [Digit(n)] else ToHex(n / 16) + [Digit(n % 16)]
  }

  function PadStart2(s: string): string {
    if |s| == 0 then "00" else if |s| == 1 then "0" + s else s
  }

  lemma PaddedHexIsTwoDigits(b: Byte)
    ensures PadStart2(ToHex(b as nat)) == HexByte(b)
  {
    var n := b as nat;
    assert n / 16 < 16;
    assert ToHex(n / 16) == [Digit(n / 16)];
    assert Digit(0) == '0';
  }

  lemma LengthAgrees(n: nat)
    requires n <= LONGEST
    ensures n / 0x2000_0000 < TWO_32
    ensures LengthBytes(n) == LeBytes(ToWord(8 * n % TWO_32)) + LeBytes(ToWord(n / 0x2000_0000))
  {
    assert 8 * n % TWO_64 == 8 * n;
    assert 8 * n / TWO_32 == n / 0x2000_0000;
  }

  method SetUint32(view: array<Byte>, at: nat, w: Word)
    requires at + 4 <= view.Length
    modifies view
    ensures view[..] == old(view[..at]) + LeBytes(w) + old(view[at + 4..])
  {
    hide ByteOf;
    view[at] := ByteOf(w, 0);
    view[at + 1] := ByteOf(w, 1);
    view[at + 2] := ByteOf(w, 2);
    view[at + 3] := ByteOf(w, 3);
  }

  method Pad(bytes: seq<Byte>, len: nat) returns (padded: array<Byte>)
    requires |bytes| <= LONGEST && len == AskedLen(|bytes|)
    ensures padded[..] == Padded(bytes) && padded.Length == len
  {
    hide AskedLen, LengthBytes, ToWord, ZerosAfter, ByteOf;
    var n := |bytes|;
    AskedLenIsEnoughExactlyWhen(n);
    LengthAgrees(n);
    padded := new Byte[len](_ => 0);
    for i := 0 to n
      invariant padded[..i] == bytes[..i] && forall j :: i <= j < len ==> padded[j] == 0
    {
      padded[i] := bytes[i];
    }
    padded[n] := 0x80;
    ghost var zeros := seq(ZerosAfter(n), _ => 0 as Byte);
    assert padded[..len - 8] == bytes + [0x80] + zeros;
    SetUint32(padded, len - 8, ToWord(8 * n % TWO_32));
    SetUint32(padded, len - 4, ToWord(n / 0x2000_0000));
  }

  method GetBlock(padded: array<Byte>, off: nat, m: array<Word>)
    requires off + 64 <= padded.Length && m.Length == 16
    modifies m
    ensures m[..] == BlockAt(padded[..], off)
  {
    hide Le32;
    for i := 0 to 16
      invariant forall j :: 0 <= j < i ==> m[j] == WordAt(padded[..], off + 4 * j)
    {
      m[i] := WordAt(padded[..], off + 4 * i);
    }
  }

  /** The 64 steps on one block. */
  method Mash(r: Regs, m: array<Word>, k: Table) returns (s: Regs)
    requires m.Length == 16
    ensures s == RfcSteps(r, 64, m[..], k)
  {
    hide RfcStep, PageMix, PageRotl, PageShift, PageWord, Add;
    var a, b, c, d := r.a, r.b, r.c, r.d;
    for i := 0 to 64
      invariant Regs(a, b, c, d) == Moved(RfcSteps(r, i, m[..], k), i % 4)
    {
      StepAgrees(RfcSteps(r, i, m[..], k), i, m[..], k);
      WordAgrees(i);
      var f := PageMix(i, b, c, d);
      var g := PageWord(i);
      var x := Add(Add(Add(a, f), k[i]), m[g]);
      a := d;
      d := c;
      c := b;
      b := Add(b, PageRotl(x, PageShift(i)));
    }
    s := Regs(a, b, c, d);
  }

  lemma HexNext(bs: seq<Byte>, b: Byte)
    ensures Hex(bs + [b]) == Hex(bs) + HexByte(b)
  {
    assert (bs + [b])[..|bs + [b]| - 1] == bs;
  }

  /** The bytes of the first `n` words. */
  function Head(ws: seq<Word>, n: nat): seq<Byte>
    requires n <= |ws|
  {
    if n == 0 then [] else Head(ws, n - 1) + LeBytes(ws[n - 1])
  }

  method HexOf(ws: seq<Word>) returns (hex: string)
    ensures hex == Hex(Head(ws, |ws|))
  {
    hide Hex, HexByte, ByteOf;
    hex := "";
    EmptyHex();
    for n := 0 to |ws|
      invariant hex == Hex(Head(ws, n))
    {
      var w := ws[n];
      ghost var before := Head(ws, n);
      assert LeBytes(w)[..0] == [] && before + [] == before;
      for i := 0 to 4
        invariant hex == Hex(before + LeBytes(w)[..i])
      {
        PaddedHexIsTwoDigits(ByteOf(w, i));
        HexNext(before + LeBytes(w)[..i], ByteOf(w, i));
        assert before + LeBytes(w)[..i] + [ByteOf(w, i)] == before + LeBytes(w)[..i + 1];
        hex := hex + PadStart2(ToHex(ByteOf(w, i) as nat));
      }
      assert LeBytes(w)[..4] == LeBytes(w);
    }
  }

  lemma EmptyHex()
    ensures Hex([]) == ""
  {
  }

  lemma FourWords(a: Word, b: Word, c: Word, d: Word)
    ensures Head([a, b, c, d], 4) == LeBytes(a) + LeBytes(b) + LeBytes(c) + LeBytes(d)
  {
    hide LeBytes;
    var ws := [a, b, c, d];
    assert Head(ws, 1) == LeBytes(a);
    assert Head(ws, 2) == LeBytes(a) + LeBytes(b);
    assert Head(ws, 3) == LeBytes(a) + LeBytes(b) + LeBytes(c);
  }

  /** `md5hex`: nothing when the page would throw. */
  method Md5Hex(bytes: seq<Byte>, k: Table) returns (r: Option<string>)
    ensures r.Some? <==> |bytes| <= LONGEST
    ensures r.Some? ==> r.value == Rfc1321(bytes, k)
  {
    hide AskedLen, RfcSteps, Hex, LeBytes, Padded, BlockAt, Add, Head;
    var n := |bytes|;
    AskedLenIsEnoughExactlyWhen(n);
    var len := AskedLen(n);
    if len < n {
      return None;
    }
    var padded := Pad(bytes, len);
    var h := INITIAL;
    var m := new Word[16](_ => 0);
    var off := 0;
    while off < padded.Length
      invariant off % 64 == 0 && off <= padded.Length && padded.Length % 64 == 0
      invariant padded[..] == Padded(bytes) && h == RfcBlocks(padded[..], off / 64, k)
    {
      GetBlock(padded, off, m);
      var s := Mash(h, m, k);
      h := Regs(Add(h.a, s.a), Add(h.b, s.b), Add(h.c, s.c), Add(h.d, s.d));
      off := off + 64;
    }
    FourWords(h.a, h.b, h.c, h.d);
    var hex := HexOf([h.a, h.b, h.c, h.d]);
    return Some(hex);
  }
}
