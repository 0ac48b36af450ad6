/** The panic message recogniser: a fixed-size sink that formatted output is streamed into, in
    whatever pieces the formatter writes, and that keeps the message's first line and the two
    numbers of a trap frame.

    `Message`, `NumberAfter` and `Scanned` say what is kept as functions of the whole message;
    `WhatSink` is the byte-at-a-time machine, and `Recognise` is the proof that they agree. */
module PanicMessage {
  import opened Common

  type Byte = b: int | 0 <= b < 256

  const WHAT_LEN: nat := 48
  const WHAT_SCAN: nat := 1024

  const SPACE: Byte := 0x20
  const NEWLINE: Byte := 0x0A

  /** `Exception occurred on ` */
  const PREFIX: seq<Byte> :=
    [0x45, 0x78, 0x63, 0x65, 0x70, 0x74, 0x69, 0x6F, 0x6E, 0x20, 0x6F,
     0x63, 0x63, 0x75, 0x72, 0x72, 0x65, 0x64, 0x20, 0x6F, 0x6E, 0x20]

  /** ` PC: ` */
  const PC_TAG: seq<Byte> := [0x20, 0x50, 0x43, 0x3A, 0x20]

  /** `EXCVADDR: ` */
  const ADDR_TAG: seq<Byte> := [0x45, 0x58, 0x43, 0x56, 0x41, 0x44, 0x44, 0x52, 0x3A, 0x20]

  // -------------------------------------------------------------------------
  // The text: what is kept of a message, as a function of the bytes scanned
  // -------------------------------------------------------------------------

  /** Printable ASCII less the bytes a JSON writer or the status page would escape. */
  function Shown(b: Byte): (r: Byte)
    ensures 0x20 <= r <= 0x7E && r !in {0x22, 0x5C, 0x2F, 0x3C, 0x3E, 0x26}
  {
    if b in {0x22, 0x5C, 0x2F, 0x3C, 0x3E, 0x26} then 0x3F
    else if b == 0x09 || b == 0x0D then SPACE
    else if 0x20 <= b <= 0x7E then b
    else 0x3F
  }

  predicate Blank(b: Byte) {
    b == SPACE || b == 0x09 || b == 0x0D || b == NEWLINE
  }

  function UpToNewline(c: seq<Byte>): seq<Byte> {
    if c == [] || c[0] == NEWLINE then [] else [c[0]] + UpToNewline(c[1..])
  }

  /** The first line that is not blank, from its first byte that is not. */
  function FirstLine(c: seq<Byte>): seq<Byte> {
    if c == [] then [] else if Blank(c[0]) then FirstLine(c[1..]) else UpToNewline(c)
  }

  function ShownLine(line: seq<Byte>): (r: seq<Byte>)
    ensures |r| == |line|
  {
    seq(|line|, i requires 0 <= i < |line| => Shown(line[i]))
  }

  /** Without any leading repeats of the exception handler's opening words. */
  function Stripped(t: seq<Byte>): seq<Byte> {
    if PREFIX <= t then Stripped(t[|PREFIX|..]) else t
  }

  function Cut(t: seq<Byte>): seq<Byte> {
    if |t| <= WHAT_LEN then t else t[..WHAT_LEN]
  }

  function Message(c: seq<Byte>): (t: seq<Byte>)
    ensures |t| <= WHAT_LEN
  {
    Cut(Stripped(ShownLine(FirstLine(c))))
  }

  // -------------------------------------------------------------------------
  // The numbers
  // -------------------------------------------------------------------------

  predicate IsDigit(b: Byte) {
    0x30 <= b <= 0x39
  }

  predicate EndsWith(c: seq<Byte>, tag: seq<Byte>) {
    |tag| <= |c| && c[|c| - |tag|..] == tag
  }

  /** Where the first occurrence of `tag` ends. */
  function FirstEnd(c: seq<Byte>, tag: seq<Byte>): (e: Option<nat>)
    ensures e.Some? ==> e.value <= |c|
  {
    if c == [] then None
    else
      match FirstEnd(c[..|c| - 1], tag)
      case Some(e) => Some(e)
      case None => if EndsWith(c, tag) then Some(|c|) else None
  }

  function LeadingDigits(s: seq<Byte>): (n: nat)
    ensures n <= |s|
    ensures forall i :: 0 <= i < n ==> IsDigit(s[i])
    ensures n < |s| ==> !IsDigit(s[n])
  {
    if s == [] || !IsDigit(s[0]) then 0 else 1 + LeadingDigits(s[1..])
  }

  const WORD: nat := 0x1_0000_0000

  /** A 32-bit value with one more decimal digit. */
  function Push(v: nat, digit: Byte): (r: nat)
    ensures r < WORD
  {
    (v * 10 + digit as int - 0x30 + WORD) % WORD
  }

  /** The source's two wrapping operations. */
  lemma PushWraps(v: nat, digit: Byte)
    requires IsDigit(digit)
    ensures Push(v, digit) == (v * 10 % WORD + (digit as int - 0x30)) % WORD
  {
    var d := digit as int - 0x30;
    assert v * 10 == v * 10 / WORD * WORD + v * 10 % WORD;
    ModPlusMultiple(v * 10 % WORD + d, v * 10 / WORD + 1);
  }

  lemma {:induction false} ModPlusMultiple(x: nat, k: nat)
    ensures (x + k * WORD) % WORD == x % WORD
  {
    if k > 0 {
      ModPlusMultiple(x, k - 1);
      assert (x + (k - 1) * WORD + WORD) % WORD == (x + (k - 1) * WORD) % WORD;
      assert x + k * WORD == x + (k - 1) * WORD + WORD;
    }
  }

  /** The value of a run of digits, in 32 bits. */
  function Decimal(s: seq<Byte>): (v: nat)
    ensures v < WORD
  {
    if s == [] then 0 else Push(Decimal(s[..|s| - 1]), Last(s))
  }

  /** The number after the first `tag`, once a byte that ends it has been seen. */
  function NumberAfter(c: seq<Byte>, tag: seq<Byte>): Option<nat> {
    match FirstEnd(c, tag)
    case None => None
    case Some(e) =>
      var n := LeadingDigits(c[e..]);
      if e + n < |c| then Some(Decimal(c[e..][..n])) else None
  }

  /** The digits of a number that has started and not ended. */
  function Unfinished(c: seq<Byte>, tag: seq<Byte>): Option<seq<Byte>> {
    match FirstEnd(c, tag)
    case None => None
    case Some(e) => if LeadingDigits(c[e..]) == |c| - e then Some(c[e..]) else None
  }

  // -------------------------------------------------------------------------
  // Where the scan stops
  // -------------------------------------------------------------------------

  /** Enough has been seen. */
  predicate Enough(c: seq<Byte>) {
    |c| >= WHAT_SCAN || (NumberAfter(c, PC_TAG).Some? && NumberAfter(c, ADDR_TAG).Some?)
  }

  function ScanFrom(m: seq<Byte>, k: nat): (n: nat)
    requires k <= |m|
    ensures k <= n <= |m|
    ensures forall j :: k <= j < n ==> !Enough(m[..j])
    ensures n == |m| || Enough(m[..n])
    decreases |m| - k
  {
    hide Enough;
    if k == |m| || Enough(m[..k]) then k else ScanFrom(m, k + 1)
  }

  /** The part of a message that is looked at: up to the first byte at which it is enough. */
  function Scanned(m: seq<Byte>): seq<Byte> {
    m[..ScanFrom(m, 0)]
  }

  // -------------------------------------------------------------------------
  // One byte more
  // -------------------------------------------------------------------------

  lemma {:induction false} UpToNewlineSnoc(c: seq<Byte>, b: Byte)
    ensures UpToNewline(c + [b]) ==
      if NEWLINE in c || b == NEWLINE then UpToNewline(c) else UpToNewline(c) + [b]
  {
    if c == [] {
      assert (c + [b])[1..] == [];
    } else if c[0] != NEWLINE {
      UpToNewlineSnoc(c[1..], b);
      assert (c + [b])[1..] == c[1..] + [b];
      assert NEWLINE in c <==> NEWLINE in c[1..];
    }
  }

  /** Where in the message a prefix ends: before the first line, inside it, or after it. */
  function LineOf(c: seq<Byte>): nat {
    if c == [] then 0 else if Blank(c[0]) then LineOf(c[1..]) else if NEWLINE in c then 2 else 1
  }

  lemma {:induction false} FirstLineSnoc(c: seq<Byte>, b: Byte)
    ensures
      if LineOf(c) == 2 || (LineOf(c) == 0 && Blank(b)) then
        FirstLine(c + [b]) == FirstLine(c) && LineOf(c + [b]) == LineOf(c)
      else if LineOf(c) == 1 && b == NEWLINE then
        FirstLine(c + [b]) == FirstLine(c) && LineOf(c + [b]) == 2
      else
        FirstLine(c + [b]) == FirstLine(c) + [b] && LineOf(c + [b]) == 1
  {
    if c == [] {
      assert (c + [b])[1..] == [];
      assert c + [b] == [b];
    } else {
      assert (c + [b])[1..] == c[1..] + [b];
      if Blank(c[0]) {
        FirstLineSnoc(c[1..], b);
      } else {
        UpToNewlineSnoc(c, b);
      }
    }
  }

  lemma {:induction false} StrippedSnoc(t: seq<Byte>, x: Byte)
    ensures Stripped(t + [x]) == if Stripped(t) + [x] == PREFIX then [] else Stripped(t) + [x]
    decreases |t|
  {
    if PREFIX <= t {
      StrippedSnoc(t[|PREFIX|..], x);
      assert (t + [x])[|PREFIX|..] == t[|PREFIX|..] + [x];
    } else if PREFIX <= t + [x] {
      assert t + [x] == PREFIX;
      assert (t + [x])[|PREFIX|..] == [];
    }
  }

  /** How the text grows by one byte of the first line. */
  lemma MessageSnoc(c: seq<Byte>, b: Byte)
    ensures LineOf(c) == 2 || (LineOf(c) == 0 && Blank(b)) || (LineOf(c) == 1 && b == NEWLINE) ==>
      Message(c + [b]) == Message(c)
    ensures !(LineOf(c) == 2 || (LineOf(c) == 0 && Blank(b)) || (LineOf(c) == 1 && b == NEWLINE)) ==>
      var grown := if |Message(c)| < WHAT_LEN then Message(c) + [Shown(b)] else Message(c);
      Message(c + [b]) == if grown == PREFIX then [] else grown
  {
    FirstLineSnoc(c, b);
    var line := ShownLine(FirstLine(c));
    StrippedSnoc(line, Shown(b));
    assert ShownLine(FirstLine(c) + [b]) == line + [Shown(b)];
  }

  lemma {:induction false} LeadingDigitsSnoc(s: seq<Byte>, b: Byte)
    ensures LeadingDigits(s + [b]) ==
      if LeadingDigits(s) < |s| then LeadingDigits(s) else if IsDigit(b) then |s| + 1 else |s|
  {
    if s == [] {
      assert (s + [b])[1..] == [];
    } else if IsDigit(s[0]) {
      LeadingDigitsSnoc(s[1..], b);
      assert (s + [b])[1..] == s[1..] + [b];
    }
  }

  /** A tag's last byte is a space and the one before it is not: enough to tell that a tag never
      ends inside a number, nor one byte after another tag. */
  predicate IsTag(tag: seq<Byte>) {
    |tag| >= 2 && Last(tag) == SPACE && tag[|tag| - 2] == 0x3A
  }

  lemma FirstEndSnoc(c: seq<Byte>, b: Byte, tag: seq<Byte>)
    ensures FirstEnd(c + [b], tag) ==
      if FirstEnd(c, tag).Some? then FirstEnd(c, tag)
      else if EndsWith(c + [b], tag) then Some(|c| + 1) else None
  {
    assert (c + [b])[..|c + [b]| - 1] == c;
  }

  lemma EndsWithAt(c: seq<Byte>, tag: seq<Byte>, k: nat)
    requires 0 < k <= |tag|
    ensures EndsWith(c, tag) ==> c[|c| - k] == tag[|tag| - k]
  {
    if EndsWith(c, tag) {
      assert c[|c| - |tag|..][|tag| - k] == c[|c| - k];
    }
  }

  /** How a number grows, ends, or starts. */
  lemma NumberSnoc(c: seq<Byte>, b: Byte, tag: seq<Byte>)
    requires IsTag(tag)
    ensures
      match Unfinished(c, tag)
      case Some(d) =>
        if IsDigit(b) then Unfinished(c + [b], tag) == Some(d + [b]) && NumberAfter(c + [b], tag) == None
        else Unfinished(c + [b], tag) == None && NumberAfter(c + [b], tag) == Some(Decimal(d))
      case None =>
        if NumberAfter(c, tag) == None && EndsWith(c + [b], tag) then
          Unfinished(c + [b], tag) == Some([]) && NumberAfter(c + [b], tag) == None
        else
          Unfinished(c + [b], tag) == None && NumberAfter(c + [b], tag) == NumberAfter(c, tag)
    ensures Unfinished(c, tag).Some? ==> NumberAfter(c, tag) == None && !EndsWith(c + [b], tag)
  {
    FirstEndSnoc(c, b, tag);
    match FirstEnd(c, tag)
    case None =>
      if EndsWith(c + [b], tag) {
        assert (c + [b])[|c| + 1..] == [];
      }
    case Some(e) =>
      var rest := c[e..];
      assert (c + [b])[e..] == rest + [b];
      LeadingDigitsSnoc(rest, b);
      var n := LeadingDigits(rest);
      assert (rest + [b])[..n] == rest[..n];
      if n == |rest| {
        assert rest[..n] == rest;
        TagNeverEndsInANumber(c, b, tag, e);
      }
  }

  lemma TagNeverEndsInANumber(c: seq<Byte>, b: Byte, tag: seq<Byte>, e: nat)
    requires IsTag(tag) && FirstEnd(c, tag) == Some(e) && LeadingDigits(c[e..]) == |c| - e
    ensures !EndsWith(c + [b], tag)
  {
    FirstEndIsEnd(c, tag);
    EndsWithAt(c + [b], tag, 2);
    EndsWithAt(c[..e], tag, 1);
    if |c| > e {
      assert c[e..][|c| - e - 1] == c[|c| - 1];
    } else {
      assert c[..e] == c;
    }
  }

  /** `FirstEnd` is the end of an occurrence. */
  lemma {:induction false} FirstEndIsEnd(c: seq<Byte>, tag: seq<Byte>)
    ensures FirstEnd(c, tag).Some? ==> EndsWith(c[..FirstEnd(c, tag).value], tag)
    ensures forall j :: 0 < j <= |c| && EndsWith(c[..j], tag) ==>
      FirstEnd(c, tag).Some? && FirstEnd(c, tag).value <= j
  {
    if c != [] {
      var before := c[..|c| - 1];
      FirstEndIsEnd(before, tag);
      assert c[..|c|] == c;
      forall j | 0 <= j < |c|
        ensures before[..j] == c[..j]
      {
      }
    }
  }

  // -------------------------------------------------------------------------
  // The streaming machine
  // -------------------------------------------------------------------------

  /** The last ten bytes seen, zeros before there were ten. */
  function Window(c: seq<Byte>): (w: seq<Byte>)
    ensures |w| == 10
  {
    if |c| >= 10 then c[|c| - 10..] else seq(10 - |c|, _ => 0) + c
  }

  lemma WindowSnoc(c: seq<Byte>, b: Byte)
    ensures Window(c + [b]) == Window(c)[1..] + [b]
  {
  }

  /** Looking at the window is looking at all that was seen: no tag has a zero in it. */
  lemma WindowEndsWith(c: seq<Byte>, tag: seq<Byte>)
    requires 0 < |tag| <= 10 && 0 !in tag
    ensures EndsWith(Window(c), tag) <==> EndsWith(c, tag)
  {
    var w := Window(c);
    if |tag| <= |c| {
      assert w[10 - |tag|..] == c[|c| - |tag|..];
    } else {
      assert w[10 - |tag|..][0] == 0;
      assert tag[0] in tag;
    }
  }

  lemma ZeroInNoTag()
    ensures 0 !in PC_TAG && 0 !in ADDR_TAG
  {
  }

  /** Two tags do not end at the same byte. */
  lemma OneTagEnds(c: seq<Byte>)
    ensures !(EndsWith(c, PC_TAG) && EndsWith(c, ADDR_TAG))
  {
    EndsWithAt(c, PC_TAG, 3);
    EndsWithAt(c, ADDR_TAG, 3);
  }

  /** A tag that ends after another's number has started has ended that number. */
  lemma LaterTagEndsNumber(c: seq<Byte>, tag: seq<Byte>, later: seq<Byte>)
    requires IsTag(tag) && IsTag(later)
    ensures
      FirstEnd(c, tag).Some? && FirstEnd(c, later).Some? && FirstEnd(c, tag).value < FirstEnd(c, later).value
      ==> Unfinished(c, tag).None?
  {
    FirstEndIsEnd(c, later);
    if FirstEnd(c, tag).Some? && FirstEnd(c, later).Some? && FirstEnd(c, tag).value < FirstEnd(c, later).value {
      var e, f := FirstEnd(c, tag).value, FirstEnd(c, later).value;
      EndsWithAt(c[..f], later, 1);
      assert c[e..][f - 1 - e] == SPACE;
    }
  }

  /** At most one number is being read. */
  lemma TagsExclude(c: seq<Byte>)
    ensures !(EndsWith(c, PC_TAG) && EndsWith(c, ADDR_TAG))
    ensures !(Unfinished(c, PC_TAG).Some? && Unfinished(c, ADDR_TAG).Some?)
  {
    OneTagEnds(c);
    LaterTagEndsNumber(c, PC_TAG, ADDR_TAG);
    LaterTagEndsNumber(c, ADDR_TAG, PC_TAG);
    FirstEndIsEnd(c, PC_TAG);
    FirstEndIsEnd(c, ADDR_TAG);
    if FirstEnd(c, PC_TAG).Some? {
      OneTagEnds(c[..FirstEnd(c, PC_TAG).value]);
    }
  }

  function TagOf(isPc: bool): (tag: seq<Byte>)
    ensures IsTag(tag)
  {
    if isPc then PC_TAG else ADDR_TAG
  }

  lemma DecimalSnoc(s: seq<Byte>, b: Byte)
    ensures Decimal(s + [b]) == Push(Decimal(s), b)
  {
    assert (s + [b])[..|s + [b]| - 1] == s;
  }

  lemma DecimalOfNothing()
    ensures Decimal([]) == 0
  {
  }

  /** The part of the sink that reads numbers. */
  datatype Reader = Reader(reading: Option<bool>, value: nat, pc: Option<nat>, addr: Option<nat>)

  /** It holds the numbers of `c`: the finished ones, and the value so far of an unfinished one. */
  ghost predicate Agrees(r: Reader, c: seq<Byte>) {
    && r.pc == NumberAfter(c, PC_TAG)
    && r.addr == NumberAfter(c, ADDR_TAG)
    && match r.reading
       case None => Unfinished(c, PC_TAG).None? && Unfinished(c, ADDR_TAG).None?
       case Some(isPc) => Unfinished(c, TagOf(isPc)).Some? && r.value == Decimal(Unfinished(c, TagOf(isPc)).value)
  }

  /** One byte: it extends or ends the number being read, and then may be the last of a tag. */
  function ReadOn(r: Reader, c: seq<Byte>, b: Byte): Reader {
    var ended :=
      if r.reading.None? then r
      else if IsDigit(b) then r.(value := Push(r.value, b))
      else if r.reading.value then r.(reading := None, pc := Some(r.value))
      else r.(reading := None, addr := Some(r.value));
    if ended.addr.None? && EndsWith(c + [b], ADDR_TAG) then ended.(reading := Some(false), value := 0)
    else if ended.pc.None? && EndsWith(c + [b], PC_TAG) then ended.(reading := Some(true), value := 0)
    else ended
  }

  lemma ReadOnAgrees(r: Reader, c: seq<Byte>, b: Byte)
    requires Agrees(r, c)
    ensures Agrees(ReadOn(r, c, b), c + [b])
  {
    hide NumberAfter, Unfinished, EndsWith, Decimal, Push, IsDigit;
    NumberSnoc(c, b, PC_TAG);
    NumberSnoc(c, b, ADDR_TAG);
    TagsExclude(c);
    TagsExclude(c + [b]);
    DecimalOfNothing();
    if r.reading.Some? {
      DigitAgrees(r, c, b);
    }
  }

  lemma DigitAgrees(r: Reader, c: seq<Byte>, b: Byte)
    requires Agrees(r, c) && r.reading.Some?
    ensures Unfinished(c, TagOf(!r.reading.value)).None?
    ensures IsDigit(b) ==>
      var d := Unfinished(c, TagOf(r.reading.value)).value;
      Decimal(d + [b]) == Push(r.value, b)
  {
    hide NumberAfter, Unfinished, Decimal, Push;
    TagsExclude(c);
    if IsDigit(b) {
      DecimalSnoc(Unfinished(c, TagOf(r.reading.value)).value, b);
    }
  }

  class WhatSink {
    const text: array<Byte>
    var len: nat
    var line: nat
    const window: array<Byte>
    /** `Some(true)` while the number after ` PC: ` is being read. */
    var reading: Option<bool>
    var value: nat
    var pc: Option<nat>
    var addr: Option<nat>
    var seen: nat

    /** Every byte taken so far. */
    ghost var taken: seq<Byte>

    /** What the fields hold, in terms of the bytes taken and nothing else. */
    ghost predicate Valid()
      reads this, text, window
    {
      && text.Length == WHAT_LEN && window.Length == 10 && text != window
      && seen == |taken|
      && len == |Message(taken)|
      && text[..] == Message(taken) + seq(WHAT_LEN - len, _ => 0)
      && line == LineOf(taken)
      && window[..] == Window(taken)
      && NumbersAgree(taken)
    }

    /** The numbers read and being read are those of `c`. */
    ghost predicate NumbersAgree(c: seq<Byte>)
      reads this
    {
      Agrees(Reader(reading, value, pc, addr), c)
    }

    constructor ()
      ensures Valid() && taken == [] && fresh(text) && fresh(window)
    {
      text := new Byte[WHAT_LEN](_ => 0);
      window := new Byte[10](_ => 0);
      len, line, seen, value := 0, 0, 0, 0;
      reading, pc, addr := None, None, None;
      taken := [];
    }

    /** The numbers' part of one byte. */
    method Number(b: Byte)
      requires window.Length == 10 && window[..] == Window(taken) && NumbersAgree(taken)
      modifies this`reading, this`value, this`pc, this`addr, window
      ensures window[..] == Window(taken + [b]) && NumbersAgree(taken + [b])
    {
      ghost var was := Reader(reading, value, pc, addr);
      hide Agrees, EndsWith, Window, NumberAfter, Push;
      if reading.Some? {
        if IsDigit(b) {
          PushWraps(value, b);
          value := (value * 10 % WORD + (b as int - 0x30)) % WORD;
        } else {
          if reading.value {
            pc := Some(value);
          } else {
            addr := Some(value);
          }
          reading := None;
        }
      }
      Shift(b);
      ZeroInNoTag();
      WindowEndsWith(taken + [b], PC_TAG);
      WindowEndsWith(taken + [b], ADDR_TAG);
      if addr.None? && EndsWith(window[..], ADDR_TAG) {
        reading := Some(false);
        value := 0;
      } else if pc.None? && EndsWith(window[..], PC_TAG) {
        reading := Some(true);
        value := 0;
      }
      ReadOnAgrees(was, taken, b);
      assert Reader(reading, value, pc, addr) == ReadOn(was, taken, b);
    }

    method Shift(b: Byte)
      requires window.Length == 10 && window[..] == Window(taken)
      modifies window
      ensures window[..] == Window(taken + [b])
    {
      WindowSnoc(taken, b);
      ghost var was := window[..];
      forall i | 0 <= i < 9 {
        window[i] := window[i + 1];
      }
      window[9] := b;
      assert window[..] == was[1..] + [b];
    }

    /** The first line's part of one byte. */
    method Text(b: Byte)
      requires text.Length == WHAT_LEN && text != window && len == |Message(taken)|
      requires text[..] == Message(taken) + seq(WHAT_LEN - len, _ => 0) && line == LineOf(taken)
      modifies this`len, this`line, text
      ensures len == |Message(taken + [b])|
      ensures text[..] == Message(taken + [b]) + seq(WHAT_LEN - len, _ => 0)
      ensures line == LineOf(taken + [b])
    {
      MessageSnoc(taken, b);
      FirstLineSnoc(taken, b);
      if line == 2 || (line == 0 && Blank(b)) {
      } else if line == 1 && b == NEWLINE {
        line := 2;
      } else {
        line := 1;
        if len < WHAT_LEN {
          text[len] := Shown(b);
          len := len + 1;
        }
        if text[..len] == PREFIX {
          forall i | 0 <= i < WHAT_LEN {
            text[i] := 0;
          }
          len := 0;
        }
      }
    }

    method TakeByte(b: Byte)
      requires Valid()
      modifies this, text, window
      ensures Valid() && taken == old(taken) + [b]
    {
      hide Agrees, Window, Message, LineOf;
      seen := seen + 1;
      Number(b);
      Text(b);
      taken := taken + [b];
    }

    method Done() returns (done: bool)
      requires Valid()
      ensures done <==> Enough(taken)
    {
      done := seen >= WHAT_SCAN || (pc.Some? && addr.Some?);
    }

    /** One `write_str`: takes bytes up to the first at which it is enough, and answers `false`
        (the formatter's error) when it stopped there. */
    method WriteStr(s: seq<Byte>) returns (more: bool)
      requires Valid() && !Enough(taken)
      modifies this, text, window
      ensures Valid() && old(taken) <= taken <= old(taken) + s
      ensures forall j :: |old(taken)| <= j < |taken| ==> !Enough(taken[..j])
      ensures if more then taken == old(taken) + s && !Enough(taken) else Enough(taken)
    {
      hide Enough;
      hide Valid;
      for i := 0 to |s|
        invariant Valid() && taken == old(taken) + s[..i]
        invariant forall j :: |old(taken)| <= j <= |taken| ==> !Enough(taken[..j])
      {
        ghost var before := taken;
        assert before[..|before|] == before;
        TakeByte(s[i]);
        assert s[..i + 1] == s[..i] + [s[i]];
        assert forall j :: 0 <= j <= |before| ==> taken[..j] == before[..j];
        var done := Done();
        if done {
          return false;
        }
        assert taken[..|taken|] == taken;
      }
      assert s[..|s|] == s;
      assert taken[..|taken|] == taken;
      return true;
    }
  }

  function Flatten(chunks: seq<seq<Byte>>): seq<Byte> {
    if chunks == [] then [] else Flatten(chunks[..|chunks| - 1]) + Last(chunks)
  }

  /** No shorter prefix was enough. */
  ghost predicate Eager(c: seq<Byte>) {
    forall j :: 0 <= j < |c| ==> !Enough(c[..j])
  }

  lemma EagerGrows(c: seq<Byte>, d: seq<Byte>)
    requires Eager(c) && c <= d && forall j :: |c| <= j < |d| ==> !Enough(d[..j])
    ensures Eager(d)
  {
    hide Enough;
    forall j | 0 <= j < |d|
      ensures !Enough(d[..j])
    {
      if j < |c| {
        assert d[..j] == c[..j];
      }
    }
  }

  lemma NothingIsNotEnough()
    ensures !Enough([]) && Eager([])
  {
  }

  /** A message recorded from the pieces its formatter writes, stopping at the first error. What
      is kept depends on the message only, not on how it was cut into pieces. */
  method Recognise(chunks: seq<seq<Byte>>) returns (text: seq<Byte>, pc: Option<nat>, addr: Option<nat>)
    ensures text == Message(Scanned(Flatten(chunks))) + seq(WHAT_LEN - |Message(Scanned(Flatten(chunks)))|, _ => 0)
    ensures pc == NumberAfter(Scanned(Flatten(chunks)), PC_TAG)
    ensures addr == NumberAfter(Scanned(Flatten(chunks)), ADDR_TAG)
  {
    var sink := new WhatSink();
    NothingIsNotEnough();
    FlattenPrefix(chunks, 0);
    assert Flatten(chunks[..0]) == [];
    hide Enough, Eager, Message, NumberAfter, Scanned, LineOf, Window, Flatten;
    var i, more := 0, true;
    while i < |chunks| && more
      invariant fresh(sink) && fresh(sink.text) && fresh(sink.window) && sink.Valid()
      invariant 0 <= i <= |chunks|
      invariant sink.taken <= Flatten(chunks[..i]) && Eager(sink.taken)
      invariant if more then sink.taken == Flatten(chunks[..i]) && !Enough(sink.taken) else Enough(sink.taken)
    {
      ghost var before := sink.taken;
      more := sink.WriteStr(chunks[i]);
      EagerGrows(before, sink.taken);
      FlattenNext(chunks, i);
      i := i + 1;
    }
    FlattenPrefix(chunks, i);
    StopIsScanned(Flatten(chunks), sink.taken);
    text, pc, addr := sink.text[..], sink.pc, sink.addr;
  }

  lemma FlattenNext(chunks: seq<seq<Byte>>, i: nat)
    requires i < |chunks|
    ensures Flatten(chunks[..i + 1]) == Flatten(chunks[..i]) + chunks[i]
  {
    assert chunks[..i + 1][..i] == chunks[..i];
  }

  lemma {:induction false} FlattenPrefix(chunks: seq<seq<Byte>>, i: nat)
    requires i <= |chunks|
    ensures Flatten(chunks[..i]) <= Flatten(chunks)
    ensures i == |chunks| ==> Flatten(chunks[..i]) == Flatten(chunks)
    decreases |chunks|
  {
    if i == |chunks| {
      assert chunks[..i] == chunks;
    } else {
      var shorter := chunks[..|chunks| - 1];
      FlattenPrefix(shorter, i);
      assert shorter[..i] == chunks[..i];
    }
  }

  /** Stopping at the first prefix that is enough is scanning. */
  lemma StopIsScanned(m: seq<Byte>, c: seq<Byte>)
    requires c <= m && (Enough(c) || c == m) && Eager(c)
    ensures Scanned(m) == c
  {
    var n := ScanFrom(m, 0);
    assert m[..|c|] == c;
    forall j | 0 <= j < |c|
      ensures !Enough(m[..j])
    {
      assert m[..j] == c[..j];
    }
    assert n >= |c|;
  }

  // -------------------------------------------------------------------------
  // What that means for a whole message
  // -------------------------------------------------------------------------

  lemma {:induction false} NumberIsStable(c: seq<Byte>, d: seq<Byte>, tag: seq<Byte>)
    requires IsTag(tag) && NumberAfter(c, tag).Some?
    ensures NumberAfter(c + d, tag) == NumberAfter(c, tag)
    decreases |d|
  {
    if d == [] {
      assert c + d == c;
    } else {
      var shorter := d[..|d| - 1];
      NumberIsStable(c, shorter, tag);
      NumberSnoc(c + shorter, Last(d), tag);
      assert c + d == (c + shorter) + [Last(d)];
    }
  }

  function Head(m: seq<Byte>): seq<Byte> {
    if |m| <= WHAT_SCAN then m else m[..WHAT_SCAN]
  }

  lemma ScannedIsAPrefix(m: seq<Byte>)
    ensures Scanned(m) <= Head(m)
    ensures Scanned(m) != Head(m) ==>
      NumberAfter(Scanned(m), PC_TAG).Some? && NumberAfter(Scanned(m), ADDR_TAG).Some?
  {
    hide NumberAfter;
    var n := ScanFrom(m, 0);
    assert |m| > WHAT_SCAN ==> |m[..WHAT_SCAN]| == WHAT_SCAN;
    assert |m[..n]| == n;
  }

  /** The two numbers are those of the message's first 1024 bytes, however early the scan stopped
      for having both. */
  lemma NumbersOfTheHead(m: seq<Byte>, tag: seq<Byte>)
    requires tag == PC_TAG || tag == ADDR_TAG
    ensures NumberAfter(Scanned(m), tag) == NumberAfter(if |m| <= 1024 then m else m[..1024], tag)
  {
    hide NumberAfter, Scanned;
    var c, h := Scanned(m), Head(m);
    ScannedIsAPrefix(m);
    if c != h {
      NumberIsStable(c, h[|c|..], tag);
      assert c + h[|c|..] == h;
    }
  }

  /** Nothing that has to be escaped, and no repeat of the dropped opening, is ever kept. */
  lemma MessageIsClean(c: seq<Byte>, i: nat)
    requires i < |Message(c)|
    ensures 0x20 <= Message(c)[i] <= 0x7E && Message(c)[i] !in {0x22, 0x5C, 0x2F, 0x3C, 0x3E, 0x26}
    ensures !(PREFIX <= Message(c))
  {
    var line := FirstLine(c);
    var t := ShownLine(line);
    StrippedIsClean(t);
    assert Message(c)[i] in Stripped(t);
    var j :| 0 <= j < |t| && t[j] == Message(c)[i];
    assert t[j] == Shown(line[j]);
  }

  lemma {:induction false} StrippedIsClean(t: seq<Byte>)
    ensures !(PREFIX <= Stripped(t))
    ensures forall b :: b in Stripped(t) ==> b in t
  {
    if PREFIX <= t {
      StrippedIsClean(t[|PREFIX|..]);
    }
  }

  // -------------------------------------------------------------------------
  // What is kept, byte for byte
  // -------------------------------------------------------------------------

  function Ascii(s: string): seq<Byte>
    requires forall i :: 0 <= i < |s| ==> s[i] < 128 as char
  {
    seq(|s|, i requires 0 <= i < |s| => s[i] as Byte)
  }

  lemma WordsLookedFor()
    ensures PREFIX == Ascii("Exception occurred on ")
    ensures PC_TAG == Ascii(" PC: ") && ADDR_TAG == Ascii("EXCVADDR: ")
  {
  }

  /** Neither unprintable nor one of the six that would be escaped. */
  predicate Plain(b: Byte) {
    0x20 <= b <= 0x7E && b !in Ascii("\"\\/<>&")
  }

  lemma ShownExactly(b: Byte)
    ensures Plain(b) ==> Shown(b) == b
    ensures b == 0x09 || b == 0x0D ==> Shown(b) == 0x20
    ensures !Plain(b) && b != 0x09 && b != 0x0D ==> Shown(b) == 0x3F
  {
    assert Ascii("\"\\/<>&") == [0x22, 0x5C, 0x2F, 0x3C, 0x3E, 0x26];
  }

  predicate AllBlank(s: seq<Byte>) {
    forall i :: 0 <= i < |s| ==> s[i] == 0x20 || s[i] == 0x09 || s[i] == 0x0A || s[i] == 0x0D
  }

  lemma {:induction false} FirstLineIs(blanks: seq<Byte>, line: seq<Byte>, rest: seq<Byte>)
    requires AllBlank(blanks) && line != [] && line[0] !in {0x20, 0x09, 0x0A, 0x0D}
    requires 0x0A !in line && (rest == [] || rest[0] == 0x0A)
    ensures FirstLine(blanks + line + rest) == line
    decreases |blanks|
  {
    var m := blanks + line + rest;
    if blanks == [] {
      assert m == line + rest;
      UpToNewlineIs(line, rest);
    } else {
      assert m[0] == blanks[0] && m[1..] == blanks[1..] + line + rest;
      FirstLineIs(blanks[1..], line, rest);
    }
  }

  lemma {:induction false} UpToNewlineIs(line: seq<Byte>, rest: seq<Byte>)
    requires 0x0A !in line && (rest == [] || rest[0] == 0x0A)
    ensures UpToNewline(line + rest) == line
    decreases |line|
  {
    if line == [] {
      assert line + rest == rest;
    } else {
      assert (line + rest)[0] == line[0] && (line + rest)[1..] == line[1..] + rest;
      UpToNewlineIs(line[1..], rest);
    }
  }

  /** A message's first line that is not blank is kept as it is: up to 48 bytes of it, after any blanks and any
      repeats of the exception handler's opening words, with every byte that has to be replaced replaced and
      every other byte itself. */
  lemma FirstLineIsKept(blanks: seq<Byte>, openings: nat, line: seq<Byte>, rest: seq<Byte>)
    requires AllBlank(blanks) && 0x0A !in line && (rest == [] || rest[0] == 0x0A)
    requires openings == 0 ==> line != [] && line[0] !in {0x20, 0x09, 0x0A, 0x0D}
    requires !(Ascii("Exception occurred on ") <= ShownLine(line))
    ensures
      var kept := Message(blanks + Repeated(Ascii("Exception occurred on "), openings) + line + rest);
      && |kept| == (if |line| <= 48 then |line| else 48)
      && forall i :: 0 <= i < |kept| ==>
           kept[i] == if Plain(line[i]) then line[i] else if line[i] == 0x09 || line[i] == 0x0D then 0x20 else 0x3F
  {
    hide Stripped, FirstLine, ShownLine, Repeated, Shown, Plain, Ascii, Cut;
    WordsLookedFor();
    var opening := Repeated(PREFIX, openings);
    OpeningIsPlain(openings);
    var whole := opening + line;
    if openings > 0 {
      RepeatedStarts(PREFIX, openings);
    } else {
      NoneRepeated(PREFIX);
    }
    assert whole[0] == (if openings > 0 then PREFIX[0] else line[0]);
    assert blanks + opening + line + rest == blanks + whole + rest;
    FirstLineIs(blanks, whole, rest);
    ShownLineCat(opening, line);
    StrippedIs(openings, ShownLine(line));
    CutIs(ShownLine(line));
    ShownLineExactly(line);
  }

  lemma NoneRepeated(s: seq<Byte>)
    ensures Repeated(s, 0) == []
  {
  }

  lemma CutIs(t: seq<Byte>)
    ensures Cut(t) == if |t| <= 48 then t else t[..48]
  {
  }

  lemma ShownLineCat(a: seq<Byte>, b: seq<Byte>)
    ensures ShownLine(a + b) == ShownLine(a) + ShownLine(b)
  {
    hide Shown;
  }

  lemma ShownLineExactly(line: seq<Byte>)
    ensures
      forall i :: 0 <= i < |line| ==>
        ShownLine(line)[i] == if Plain(line[i]) then line[i] else if line[i] in {0x09, 0x0D} then 0x20 else 0x3F
  {
    hide Shown, Plain;
    forall i | 0 <= i < |line| ensures ShownLine(line)[i] ==
      if Plain(line[i]) then line[i] else if line[i] == 0x09 || line[i] == 0x0D then 0x20 else 0x3F
    {
      ShownExactly(line[i]);
    }
  }

  function Repeated(s: seq<Byte>, n: nat): seq<Byte> {
    if n == 0 then [] else s + Repeated(s, n - 1)
  }

  lemma RepeatedStarts(s: seq<Byte>, n: nat)
    requires n > 0 && s != []
    ensures |Repeated(s, n)| > 0 && Repeated(s, n)[0] == s[0]
  {
  }

  lemma {:induction false} OpeningIsPlain(n: nat)
    ensures ShownLine(Repeated(PREFIX, n)) == Repeated(PREFIX, n) && 0x0A !in Repeated(PREFIX, n)
  {
    if n > 0 {
      OpeningIsPlain(n - 1);
      assert ShownLine(PREFIX) == PREFIX;
      ShownLineCat(PREFIX, Repeated(PREFIX, n - 1));
    }
  }

  lemma {:induction false} StrippedIs(n: nat, t: seq<Byte>)
    requires !(PREFIX <= t)
    ensures Stripped(Repeated(PREFIX, n) + t) == t
  {
    if n == 0 {
      assert Repeated(PREFIX, 0) + t == t;
    } else {
      var u := Repeated(PREFIX, n) + t;
      assert u == PREFIX + (Repeated(PREFIX, n - 1) + t);
      assert u[|PREFIX|..] == Repeated(PREFIX, n - 1) + t;
      StrippedIs(n - 1, t);
    }
  }

  // -------------------------------------------------------------------------
  // The numbers, as they are written
  // -------------------------------------------------------------------------

  /** A number the way a formatter writes it. */
  function Written(n: nat): (s: seq<Byte>)
    ensures s != [] && forall i :: 0 <= i < |s| ==> 0x30 <= s[i] <= 0x39
  {
    if n < 10 then [n + 0x30] else Written(n / 10) + [n % 10 + 0x30]
  }

  lemma {:induction false} DecimalOfWritten(n: nat)
    ensures Decimal(Written(n)) == n % 0x1_0000_0000
  {
    if n < 10 {
      assert [n + 0x30][..0] == [];
      DecimalOfNothing();
    } else {
      DecimalOfWritten(n / 10);
      DecimalSnoc(Written(n / 10), n % 10 + 0x30);
      PushedIs(n / 10, n % 10);
    }
  }

  lemma PushedIs(v: nat, d: nat)
    requires d < 10
    ensures Push(v % 0x1_0000_0000, d + 0x30) == (v * 10 + d) % 0x1_0000_0000
  {
    var k := v / 0x1_0000_0000;
    var low := v % 0x1_0000_0000;
    assert v * 10 + d == low * 10 + d + k * 10 * WORD;
    ModPlusMultiple(low * 10 + d, 1);
    ModPlusMultiple(low * 10 + d, k * 10);
  }

  lemma {:induction false} DigitsOf(s: seq<Byte>, rest: seq<Byte>)
    requires (forall i :: 0 <= i < |s| ==> 0x30 <= s[i] <= 0x39) && rest != [] && !(0x30 <= rest[0] <= 0x39)
    ensures LeadingDigits(s + rest) == |s|
    decreases |s|
  {
    if s == [] {
      assert s + rest == rest;
    } else {
      assert (s + rest)[1..] == s[1..] + rest;
      DigitsOf(s[1..], rest);
    }
  }

  /** Any number written in decimal after the first ` PC: `, or the first `EXCVADDR: `, and followed by anything but a
      digit is read back: all of it if it fits 32 bits, and what is left of it in 32 bits otherwise. */
  lemma NumberIsReadBack(before: seq<Byte>, n: nat, rest: seq<Byte>, tag: seq<Byte>)
    requires tag == Ascii(" PC: ") || tag == Ascii("EXCVADDR: ")
    requires rest != [] && !(0x30 <= rest[0] <= 0x39)
    requires forall j :: 0 <= j < |before + tag| ==> !EndsWith((before + tag)[..j], tag)
    ensures NumberAfter(before + tag + Written(n) + rest, tag) == Some(n % 0x1_0000_0000)
  {
    hide Written, Decimal, LeadingDigits, FirstEnd, Ascii;
    WordsLookedFor();
    var c := before + tag + Written(n) + rest;
    var e := |before| + |tag|;
    assert c[..e] == before + tag;
    assert EndsWith(c[..e], tag) by { assert (before + tag)[|before|..] == tag; }
    FirstEndIsEnd(c, tag);
    assert FirstEnd(c, tag) == Some(e) by {
      assert forall j :: 0 <= j < e ==> c[..j] == (before + tag)[..j];
    }
    assert c[e..] == Written(n) + rest;
    DigitsOf(Written(n), rest);
    assert c[e..][..|Written(n)|] == Written(n);
    DecimalOfWritten(n);
  }
}
