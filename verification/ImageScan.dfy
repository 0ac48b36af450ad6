/** The checks an uploaded image goes through while it arrives, in whatever pieces it arrives.

    SHA-256 is a parameter: what is modelled is which bytes it is taken of. */
module ImageScan {
  import opened Common

  type Byte = bv8

  const HEADER_LEN: nat := 24
  const HEAD_LEN: nat := 112
  const HASH_LEN: nat := 32
  const APP_DESC_OFFSET: nat := 32
  const DESC_VERSION: nat := 16
  const DESC_PROJECT: nat := 48
  const DESC_FIELD: nat := 32
  const IMAGE_MAGIC: Byte := 0xE9
  const MAX_SEGMENTS: nat := 16
  const SEGMENT_LIMIT: nat := 0x100_0000
  const CHECKSUM_SEED: Byte := 0xEF
  const U32_MAX: nat := 0xFFFF_FFFF

  /** "screeny-fw", as bytes. */
  const PROJECT_NAME: seq<Byte> := [0x73, 0x63, 0x72, 0x65, 0x65, 0x6E, 0x79, 0x2D, 0x66, 0x77]

  datatype Error = BadMagic | WrongChip | WrongProject | BadChecksum | BadSha256 | TooLarge | Flash

  datatype Phase = Header | SegmentHeader | SegmentData | Padding | Checksum | Hash | Trailing

  /** `hashed` are the bytes given to SHA-256 so far. */
  datatype Scan = Scan(
    slotLen: nat, pos: nat, phase: Phase, head: seq<Byte>,
    segmentsLeft: nat, segments: nat, segHdr: seq<Byte>, segRemaining: nat,
    checksum: Byte, hashStart: Option<nat>, digest: seq<Byte>, hashed: seq<Byte>)

  datatype Image = Image(len: nat, trailing: nat, digest: seq<Byte>, version: seq<Byte>, segments: nat)

  function New(slotLen: nat): (s: Scan)
    ensures Valid(s)
  {
    Scan(slotLen, 0, Header, [], 0, 0, [], 0, CHECKSUM_SEED, None, [], [])
  }

  // -------------------------------------------------------------------------
  // The pieces of one step
  // -------------------------------------------------------------------------

  function Le32(b0: Byte, b1: Byte, b2: Byte, b3: Byte): nat {
    (b0 as nat) + 0x100 * (b1 as nat) + 0x1_0000 * (b2 as nat) + 0x100_0000 * (b3 as nat)
  }

  function XorAll(x: Byte, bs: seq<Byte>): Byte
    decreases bs
  {
    if bs == [] then x else XorAll(x ^ bs[0], bs[1..])
  }

  /** The copy of the front of the image, while there is room. */
  function FillHead(head: seq<Byte>, bs: seq<Byte>): (r: seq<Byte>)
    requires |head| <= HEAD_LEN
    ensures head <= r && |r| <= HEAD_LEN
  {
    if |bs| <= HEAD_LEN - |head| then head + bs else head + bs[..HEAD_LEN - |head|]
  }

  /** How many zero bytes stand before the checksum, which ends a block of sixteen. */
  function PadFrom(pos: nat): nat {
    var end := (if pos + 16 <= U32_MAX then pos + 16 else U32_MAX) / 16 * 16;
    if end >= pos + 1 then end - (pos + 1) else 0
  }

  function BeginPadding(s: Scan): Scan {
    var pad := PadFrom(s.pos);
    s.(segRemaining := pad, phase := if pad == 0 then Checksum else Padding)
  }

  function AfterSegment(s: Scan): Scan {
    if s.segmentsLeft == 0 then BeginPadding(s) else s.(phase := SegmentHeader)
  }

  /** How many more bytes the phase wants, if there is a limit. */
  function Wants(s: Scan): Option<int> {
    match s.phase
    case Header => Some(HEADER_LEN - |s.head|)
    case SegmentHeader => Some(8 - |s.segHdr|)
    case SegmentData => Some(s.segRemaining)
    case Padding => Some(s.segRemaining)
    case Checksum => Some(1)
    case Hash => Some(HASH_LEN - |s.digest|)
    case Trailing => None
  }

  predicate Valid(s: Scan) {
    && |s.head| <= HEAD_LEN
    && (s.phase.Header? ==> |s.head| < HEADER_LEN)
    && |s.segHdr| < 8
    && (s.phase.SegmentHeader? ==> s.segmentsLeft > 0)
    && (s.phase.SegmentData? || s.phase.Padding? ==> s.segRemaining > 0)
    && (s.phase.Hash? ==> |s.digest| < HASH_LEN)
    && (!s.phase.Hash? && !s.phase.Trailing? ==> s.digest == [])
  }

  /** The phase has all it wants. */
  predicate Full(s: Scan) {
    && |s.head| <= HEAD_LEN
    && (s.phase.Header? ==> |s.head| >= HEADER_LEN)
    && (if s.phase.SegmentHeader? then |s.segHdr| == 8 && s.segmentsLeft > 0 else |s.segHdr| < 8)
    && (!s.phase.Hash? && !s.phase.Trailing? ==> s.digest == [])
  }

  /** Taking `bs`, no more than the phase wants, without moving on. Everything up to the appended hash
      is hashed, and nothing after it. */
  function Absorb(s: Scan, bs: seq<Byte>): (t: Scan)
    requires Valid(s) && !s.phase.Checksum? && (Wants(s).Some? ==> |bs| <= Wants(s).value)
    ensures if Wants(s) == Some(|bs|) then Full(t) && Wants(t) == Some(0) else Valid(t) && Wants(t) != Some(0)
  {
    var u := s.(pos := s.pos + |bs|);
    match s.phase
    case Header => u.(head := s.head + bs, hashed := s.hashed + bs)
    case SegmentHeader => u.(segHdr := s.segHdr + bs, head := FillHead(s.head, bs), hashed := s.hashed + bs)
    case SegmentData =>
      u.(checksum := XorAll(s.checksum, bs), head := FillHead(s.head, bs), segRemaining := s.segRemaining - |bs|,
         hashed := s.hashed + bs)
    case Padding => u.(segRemaining := s.segRemaining - |bs|, hashed := s.hashed + bs)
    case Hash => u.(digest := s.digest + bs)
    case Trailing => u
  }

  /** Checks 1, 2 and 3, and the number of segments. */
  function HeaderError(head: seq<Byte>): Option<Error>
    requires |head| >= HEADER_LEN
  {
    if head[0] != IMAGE_MAGIC then Some(BadMagic)
    else if head[12] != 0 || head[13] != 0 then Some(WrongChip)
    else if head[23] == 0 then Some(BadSha256)
    else if head[1] as nat > MAX_SEGMENTS then Some(BadChecksum)
    else None
  }

  /** The check of a phase that has all it wants, and what comes next. */
  function Complete(s: Scan): (r: Result<Scan, Error>)
    requires Full(s) && !s.phase.Checksum?
    ensures r.Ok? ==> Valid(r.value)
  {
    match s.phase
    case Header =>
      var e := HeaderError(s.head);
      if e.Some? then Err(e.value)
      else Ok(AfterSegment(s.(segments := s.head[1] as nat, segmentsLeft := s.head[1] as nat)))
    case SegmentHeader =>
      var dataLen := Le32(s.segHdr[4], s.segHdr[5], s.segHdr[6], s.segHdr[7]);
      if dataLen % 4 != 0 || dataLen >= SEGMENT_LIMIT then Err(BadChecksum)
      else
        var t := s.(segHdr := [], segmentsLeft := s.segmentsLeft - 1, segRemaining := dataLen);
        Ok(if dataLen != 0 then t.(phase := SegmentData) else AfterSegment(t))
    case SegmentData => Ok(AfterSegment(s))
    case Padding => Ok(s.(phase := Checksum))
    case Hash => Ok(s.(phase := Trailing))
    case Trailing => Ok(s)
  }

  datatype Progress = Progress(scan: Scan, n: nat)

  /** One turn: as much of the front of `bs` as the phase wants. */
  function Step(s: Scan, bs: seq<Byte>): (r: Result<Progress, Error>)
    requires Valid(s) && bs != []
    ensures r.Ok? ==> Valid(r.value.scan) && 0 < r.value.n <= |bs|
  {
    if s.phase.Checksum? then
      if bs[0] != s.checksum then Err(BadChecksum)
      else Ok(Progress(s.(hashStart := Some(s.pos + 1), phase := Hash, pos := s.pos + 1, hashed := s.hashed + [bs[0]]), 1))
    else
      var wants := Wants(s);
      var n := if wants.Some? && wants.value < |bs| then wants.value else |bs|;
      var t := Absorb(s, bs[..n]);
      if Wants(t) == Some(0) then
        var done := Complete(t);
        if done.Err? then Err(done.error) else Ok(Progress(done.value, n))
      else Ok(Progress(t, n))
  }

  /** The loop over one piece. */
  function Feed(s: Scan, bs: seq<Byte>): (r: Result<Scan, Error>)
    requires Valid(s)
    ensures r.Ok? ==> Valid(r.value)
    decreases |bs|
  {
    if bs == [] then Ok(s)
    else
      var p := Step(s, bs);
      if p.Err? then Err(p.error) else Feed(p.value.scan, bs[p.value.n..])
  }

  /** A piece that would not fit the slot is refused as a whole. */
  function Push(s: Scan, bs: seq<Byte>): (r: Result<Scan, Error>)
    requires Valid(s)
    ensures r.Ok? ==> Valid(r.value)
  {
    if s.pos + |bs| > s.slotLen then Err(TooLarge) else Feed(s, bs)
  }

  // -------------------------------------------------------------------------
  // One byte at a time
  // -------------------------------------------------------------------------

  function Bytes(s: Scan, bs: seq<Byte>): (r: Result<Scan, Error>)
    requires Valid(s)
    ensures r.Ok? ==> Valid(r.value)
    decreases |bs|
  {
    if bs == [] then Ok(s)
    else
      var p := Step(s, [bs[0]]);
      if p.Err? then Err(p.error) else Bytes(p.value.scan, bs[1..])
  }

  lemma {:induction false} BytesCat(s: Scan, a: seq<Byte>, b: seq<Byte>)
    requires Valid(s)
    ensures
      Bytes(s, a + b) == match Bytes(s, a) { case Ok(t) => Bytes(t, b) case Err(e) => Err(e) }
    decreases |a|
  {
    hide Step;
    if a == [] {
      assert a + b == b;
    } else {
      assert (a + b)[0] == a[0] && (a + b)[1..] == a[1..] + b;
      var p := Step(s, [a[0]]);
      if p.Ok? {
        BytesCat(p.value.scan, a[1..], b);
      }
    }
  }

  lemma {:induction false} XorAllCat(x: Byte, a: seq<Byte>, b: seq<Byte>)
    ensures XorAll(x, a + b) == XorAll(XorAll(x, a), b)
    decreases |a|
  {
    if a == [] {
      assert a + b == b;
    } else {
      assert (a + b)[0] == a[0] && (a + b)[1..] == a[1..] + b;
      XorAllCat(x ^ a[0], a[1..], b);
    }
  }

  lemma FillHeadCat(head: seq<Byte>, a: seq<Byte>, b: seq<Byte>)
    requires |head| <= HEAD_LEN
    ensures FillHead(head, a + b) == FillHead(FillHead(head, a), b)
  {
    var x := FillHead(head, a + b);
    var y := FillHead(FillHead(head, a), b);
    assert |x| == |y|;
    assert forall i :: 0 <= i < |x| ==> x[i] == y[i];
  }

  /** Absorbing without finishing the phase leaves the phase as it was, ready for the rest. */
  lemma AbsorbCat(s: Scan, a: seq<Byte>, b: seq<Byte>)
    requires Valid(s) && !s.phase.Checksum?
    requires Wants(s).Some? ==> |a| + |b| <= Wants(s).value && (|a| < Wants(s).value)
    ensures
      var t := Absorb(s, a);
      && Valid(t) && t.phase == s.phase && Wants(t) != Some(0)
      && (Wants(t).Some? ==> |b| <= Wants(t).value)
      && Absorb(t, b) == Absorb(s, a + b)
  {
    hide XorAll, FillHead;
    XorAllCat(s.checksum, a, b);
    FillHeadCat(s.head, a, b);
    assert s.head + a + b == s.head + (a + b);
    assert s.segHdr + a + b == s.segHdr + (a + b);
    assert s.digest + a + b == s.digest + (a + b);
    assert s.hashed + a + b == s.hashed + (a + b);
    FillHeadFits(s.head, a);
  }

  lemma FillHeadFits(head: seq<Byte>, bs: seq<Byte>)
    requires |head| <= HEAD_LEN
    ensures |FillHead(head, bs)| <= HEAD_LEN
  {
  }

  /** One turn of the scanner is that many single bytes. */
  lemma {:induction false} StepIsBytes(s: Scan, bs: seq<Byte>)
    requires Valid(s) && bs != []
    ensures
      match Step(s, bs)
      case Ok(p) => Bytes(s, bs[..p.n]) == Ok(p.scan)
      case Err(e) => Bytes(s, bs) == Err(e)
    decreases |bs|
  {
    hide Absorb, Complete, Wants;
    var one := [bs[0]];
    var first := Step(s, one);
    WantsSome(s);
    if s.phase.Checksum? || (Wants(s).Some? && Wants(s).value == 1) || |bs| == 1 {
      assert bs[..1] == one == one[..1];
      BytesOfOne(s, bs[0]);
      if first.Err? {
        assert Bytes(s, bs) == Err(first.error);
      }
    } else {
      StepMinusOne(s, bs);
      var t := first.value.scan;
      StepIsBytes(t, bs[1..]);
      if Step(s, bs).Ok? {
        var n := Step(s, bs).value.n;
        assert bs[..n][1..] == bs[1..][..n - 1];
      }
    }
  }

  lemma WantsSome(s: Scan)
    requires Valid(s)
    ensures Wants(s).Some? ==> Wants(s).value > 0
  {
  }

  lemma BytesOfOne(s: Scan, b: Byte)
    requires Valid(s)
    ensures
      match Step(s, [b])
      case Ok(p) => Bytes(s, [b]) == Ok(p.scan)
      case Err(e) => Bytes(s, [b]) == Err(e)
  {
    hide Step;
    assert [b][1..] == [];
  }

  /** A turn that takes two bytes or more is a turn that takes one and then a turn that takes the rest. */
  lemma StepMinusOne(s: Scan, bs: seq<Byte>)
    requires Valid(s) && |bs| > 1 && !s.phase.Checksum? && (Wants(s).Some? ==> Wants(s).value > 1)
    ensures Step(s, [bs[0]]).Ok? && Step(s, [bs[0]]).value.n == 1
    ensures
      var t := Step(s, [bs[0]]).value.scan;
      match Step(s, bs)
      case Ok(p) => Step(t, bs[1..]) == Ok(Progress(p.scan, p.n - 1))
      case Err(e) => Step(t, bs[1..]) == Err(e)
  {
    hide Absorb, Complete;
    var wants := Wants(s);
    var n := if wants.Some? && wants.value < |bs| then wants.value else |bs|;
    assert [bs[0]][..1] == [bs[0]];
    AbsorbCat(s, [bs[0]], bs[1..n]);
    assert [bs[0]] + bs[1..n] == bs[..n];
    assert bs[1..][..n - 1] == bs[1..n];
    AbsorbWants(s, [bs[0]]);
  }

  lemma AbsorbWants(s: Scan, bs: seq<Byte>)
    requires Valid(s) && !s.phase.Checksum? && (Wants(s).Some? ==> |bs| <= Wants(s).value)
    ensures
      var t := Absorb(s, bs);
      t.phase == s.phase && (Wants(s).None? ==> Wants(t).None?)
      && (Wants(s).Some? ==> Wants(t) == Some(Wants(s).value - |bs|))
  {
  }

  /** The scanner is a fold over the bytes: where the pieces end makes no difference to it. */
  lemma {:induction false} FeedIsBytes(s: Scan, bs: seq<Byte>)
    requires Valid(s)
    ensures Feed(s, bs) == Bytes(s, bs)
    decreases |bs|
  {
    hide Step;
    if bs != [] {
      StepIsBytes(s, bs);
      var p := Step(s, bs);
      if p.Ok? {
        var n := p.value.n;
        BytesCat(s, bs[..n], bs[n..]);
        assert bs[..n] + bs[n..] == bs;
        FeedIsBytes(p.value.scan, bs[n..]);
      }
    }
  }

  function Pushes(s: Scan, pieces: seq<seq<Byte>>): (r: Result<Scan, Error>)
    requires Valid(s)
    decreases |pieces|
  {
    if pieces == [] then Ok(s)
    else
      var p := Push(s, pieces[0]);
      if p.Err? then p else Pushes(p.value, pieces[1..])
  }

  function Joined(pieces: seq<seq<Byte>>): seq<Byte> {
    if pieces == [] then [] else pieces[0] + Joined(pieces[1..])
  }

  lemma {:induction false} BytesCount(s: Scan, bs: seq<Byte>)
    requires Valid(s)
    ensures Bytes(s, bs).Ok? ==> Bytes(s, bs).value.pos == s.pos + |bs| && Bytes(s, bs).value.slotLen == s.slotLen
    decreases |bs|
  {
    hide Step;
    if bs != [] {
      StepCounts(s, [bs[0]]);
      var p := Step(s, [bs[0]]);
      if p.Ok? {
        BytesCount(p.value.scan, bs[1..]);
      }
    }
  }

  lemma StepCounts(s: Scan, bs: seq<Byte>)
    requires Valid(s) && bs != []
    ensures
      Step(s, bs).Ok? ==>
        Step(s, bs).value.scan.pos == s.pos + Step(s, bs).value.n && Step(s, bs).value.scan.slotLen == s.slotLen
  {
    hide XorAll, FillHead, Le32;
  }

  /** Whatever pieces a body comes in, the scanner ends where the body, byte for byte, leads it, or has
      refused it; and a body that fits the slot is refused for the same reason however it comes. */
  lemma {:induction false} SplitsAgree(s: Scan, pieces: seq<seq<Byte>>)
    requires Valid(s) && s.pos <= s.slotLen
    ensures s.pos + |Joined(pieces)| <= s.slotLen ==> Pushes(s, pieces) == Bytes(s, Joined(pieces))
    ensures s.pos + |Joined(pieces)| > s.slotLen ==> Pushes(s, pieces).Err?
    decreases |pieces|
  {
    hide Feed, Bytes;
    if pieces == [] {
      BytesOfNone(s);
    } else {
      var first, rest := pieces[0], Joined(pieces[1..]);
      FeedIsBytes(s, first);
      BytesCat(s, first, rest);
      BytesCount(s, first);
      var p := Push(s, first);
      if p.Ok? {
        SplitsAgree(p.value, pieces[1..]);
      }
    }
  }

  lemma BytesOfNone(s: Scan)
    requires Valid(s)
    ensures Bytes(s, []) == Ok(s)
  {
  }

  // -------------------------------------------------------------------------
  // The verdict
  // -------------------------------------------------------------------------

  function UpToZero(bs: seq<Byte>): seq<Byte>
    decreases bs
  {
    if bs == [] || bs[0] == 0 then [] else [bs[0]] + UpToZero(bs[1..])
  }

  /** Check 4, from the application's descriptor. */
  function AppDescError(head: seq<Byte>): Option<Error>
    requires |head| == HEAD_LEN
  {
    var d := head[APP_DESC_OFFSET..];
    if d[..4] != [0x32, 0x54, 0xCD, 0xAB] then Some(WrongProject)
    else if UpToZero(d[DESC_PROJECT..DESC_PROJECT + DESC_FIELD]) != PROJECT_NAME then Some(WrongProject)
    else None
  }

  /** The first check the header breaks, on its bytes. */
  lemma HeaderErrorExactly(head: seq<Byte>)
    requires |head| >= HEADER_LEN
    ensures HeaderError(head) == Some(BadMagic) <==> head[0] != 0xE9
    ensures HeaderError(head) == Some(WrongChip) <==> head[0] == 0xE9 && !(head[12] == 0 && head[13] == 0)
    ensures HeaderError(head) == Some(BadSha256) <==>
      head[0] == 0xE9 && head[12] == 0 && head[13] == 0 && head[23] == 0
    ensures HeaderError(head) == Some(BadChecksum) <==>
      head[0] == 0xE9 && head[12] == 0 && head[13] == 0 && head[23] != 0 && head[1] as nat > 16
    ensures HeaderError(head).None? <==>
      head[0] == 0xE9 && head[12] == 0 && head[13] == 0 && head[23] != 0 && head[1] as nat <= 16
  {
  }

  function Ascii(s: string): seq<Byte>
    requires forall i :: 0 <= i < |s| ==> s[i] < 128 as char
  {
    seq(|s|, i requires 0 <= i < |s| => s[i] as Byte)
  }

  lemma ProjectIsOurs()
    ensures PROJECT_NAME == Ascii("screeny-fw")
  {
  }

  lemma {:induction false} UpToZeroIs(bs: seq<Byte>, name: seq<Byte>)
    requires |name| < |bs| && 0 !in name
    ensures UpToZero(bs) == name <==> bs[..|name|] == name && bs[|name|] == 0
    decreases bs
  {
    if name == [] {
      assert bs[..0] == [];
    } else if bs[0] != 0 {
      UpToZeroIs(bs[1..], name[1..]);
      assert name == [name[0]] + name[1..];
      assert bs[..|name|] == [bs[0]] + bs[1..][..|name| - 1];
      assert name[0] in name;
    } else {
      assert name[0] in name && bs[..|name|][0] == 0;
    }
  }

  /** The descriptor passes exactly when it begins with its magic number and names this project, and nothing
      after the name. */
  lemma AppDescErrorExactly(head: seq<Byte>)
    requires |head| == HEAD_LEN
    ensures AppDescError(head).None? <==>
      head[32..36] == [0x32, 0x54, 0xCD, 0xAB] && head[80..90] == Ascii("screeny-fw") && head[90] == 0
    ensures AppDescError(head).Some? ==> AppDescError(head) == Some(WrongProject)
  {
    hide UpToZero, Ascii;
    ProjectIsOurs();
    NameIsThere(head);
    UpToZeroIs(head[80..112], PROJECT_NAME);
  }

  lemma NameIsThere(head: seq<Byte>)
    requires |head| == 112
    ensures head[32..][..4] == head[32..36] && head[32..][48..80] == head[80..112]
    ensures head[80..112][..10] == head[80..90] && head[80..112][10] == head[90]
  {
  }

  /** An image of this project for this chip, as far as its first 112 bytes say. */
  predicate FrontIsOurs(body: seq<Byte>) {
    && |body| >= 112
    && body[0] == 0xE9 && body[1] as nat <= 16 && body[12] == 0 && body[13] == 0 && body[23] != 0
    && body[32..36] == [0x32, 0x54, 0xCD, 0xAB] && body[80..90] == Ascii("screeny-fw") && body[90] == 0
  }

  /** Neither check finds an error in the front of an image exactly when these are its bytes. */
  lemma FrontIsOursExactlyWhen(body: seq<Byte>)
    ensures FrontIsOurs(body) <==>
      |body| >= HEAD_LEN && HeaderError(body[..HEAD_LEN]).None? && AppDescError(body[..HEAD_LEN]).None?
  {
    hide HeaderError, AppDescError;
    if |body| >= HEAD_LEN {
      var head := body[..HEAD_LEN];
      HeaderErrorExactly(head);
      AppDescErrorExactly(head);
      assert head[32..36] == body[32..36] && head[80..90] == body[80..90];
    }
  }

  /** What the scanner can say before the first erase. */
  function CheckFront(s: Scan): Option<Error>
    requires Valid(s)
  {
    if |s.head| < HEAD_LEN then None else AppDescError(s.head)
  }

  function Finish(s: Scan, sha: seq<Byte> -> seq<Byte>): Result<Image, Error>
    requires Valid(s)
  {
    if |s.head| < HEADER_LEN then Err(BadMagic)
    else if |s.head| < HEAD_LEN then Err(BadSha256)
    else if AppDescError(s.head).Some? then Err(AppDescError(s.head).value)
    else if !s.phase.Trailing? then Err(BadSha256)
    else if sha(s.hashed) != s.digest then Err(BadSha256)
    else
      var len := (if s.hashStart.Some? then s.hashStart.value else s.pos) + HASH_LEN;
      var version := s.head[APP_DESC_OFFSET + DESC_VERSION..APP_DESC_OFFSET + DESC_VERSION + DESC_FIELD];
      Ok(Image(len, if s.pos >= len then s.pos - len else 0, s.digest, version, s.segments))
  }

  /** Where the scanner is in the body it has seen. */
  ghost predicate Follows(s: Scan, body: seq<Byte>) {
    && s.pos == |body|
    && s.head <= body && |s.head| <= HEAD_LEN
    && (!s.phase.Header? ==> |s.head| >= HEADER_LEN && HeaderError(s.head) == None && s.segments == s.head[1] as nat)
    && (s.phase.Padding? ==> (s.pos + s.segRemaining + 1) % 16 == 0)
    && (s.phase.Checksum? ==> (s.pos + 1) % 16 == 0)
    && (s.phase.Hash? || s.phase.Trailing? <==> s.hashStart.Some?)
    && (s.hashStart.None? ==> s.hashed == body)
    && (s.hashStart.Some? ==>
          var h := s.hashStart.value;
          && h <= |body| && h % 16 == 0 && s.hashed == body[..h]
          && (s.phase.Hash? ==> s.digest == body[h..])
          && (s.phase.Trailing? ==> h + HASH_LEN <= |body| && s.digest == body[h..h + HASH_LEN]))
  }

  /** In the phases that copy the front of the image, the copy is all there is room for. */
  predicate HeadFills(s: Scan) {
    s.phase.Header? || s.phase.SegmentHeader? || s.phase.SegmentData? ==>
      |s.head| == if s.pos < HEAD_LEN then s.pos else HEAD_LEN
  }

  /** Longer slots than this would meet the end of 32 bits in the padding. */
  const LONGEST_SLOT: nat := U32_MAX - 16

  lemma PadAligned(pos: nat)
    requires pos <= LONGEST_SLOT
    ensures (pos + PadFrom(pos) + 1) % 16 == 0
  {
    var q, r := (pos + 16) / 16, (pos + 16) % 16;
    assert q * 16 + r == pos + 16 && q * 16 >= pos + 1;
    assert pos + PadFrom(pos) + 1 == q * 16;
  }

  lemma AfterSegmentFollows(s: Scan, body: seq<Byte>)
    requires s.pos == |body| <= LONGEST_SLOT && s.head <= body && HEADER_LEN <= |s.head| <= HEAD_LEN
    requires HeaderError(s.head) == None && s.segments == s.head[1] as nat && s.hashStart == None && s.hashed == body
    requires |s.head| == if s.pos < HEAD_LEN then s.pos else HEAD_LEN
    ensures Follows(AfterSegment(s), body) && HeadFills(AfterSegment(s))
  {
    hide PadFrom, HeaderError;
    PadAligned(s.pos);
  }

  lemma FillHeadFollows(head: seq<Byte>, b: Byte, body: seq<Byte>)
    requires head <= body && |head| == (if |body| < HEAD_LEN then |body| else HEAD_LEN)
    ensures FillHead(head, [b]) <= body + [b]
    ensures |FillHead(head, [b])| == (if |body + [b]| < HEAD_LEN then |body + [b]| else HEAD_LEN)
  {
    assert [b][..0] == [];
  }

  /** A longer copy begins with the same header. */
  lemma SameHeader(head: seq<Byte>, more: seq<Byte>)
    requires |head| >= HEADER_LEN && head <= more
    ensures HeaderError(more) == HeaderError(head)
  {
    assert forall i :: 0 <= i < HEADER_LEN ==> head[i] == more[i];
  }

  lemma ByteFollows(s: Scan, b: Byte, body: seq<Byte>)
    requires Valid(s) && Follows(s, body) && HeadFills(s) && |body| < LONGEST_SLOT
    ensures
      var p := Step(s, [b]);
      p.Ok? ==> Follows(p.value.scan, body + [b]) && HeadFills(p.value.scan)
  {
    hide HeaderError, FillHead, XorAll, AfterSegment, Le32, Absorb, Complete;
    if !s.phase.Checksum? {
      assert [b][..1] == [b];
      AbsorbFollows(s, b, body);
    }
  }

  lemma AbsorbFollows(s: Scan, b: Byte, body: seq<Byte>)
    requires Valid(s) && Follows(s, body) && HeadFills(s) && |body| < LONGEST_SLOT && !s.phase.Checksum?
    requires Wants(s).Some? ==> 1 <= Wants(s).value
    ensures
      var t := Absorb(s, [b]);
      if Wants(t) == Some(0)
      then Complete(t).Ok? ==> Follows(Complete(t).value, body + [b]) && HeadFills(Complete(t).value)
      else Follows(t, body + [b]) && HeadFills(t)
  {
    hide HeaderError, FillHead, XorAll, Complete;
    var t := Absorb(s, [b]);
    if s.phase.SegmentHeader? || s.phase.SegmentData? {
      FillHeadFollows(s.head, b, body);
      SameHeader(s.head, t.head);
    }
    if Wants(t) == Some(0) {
      CompleteFollows(s, t, body + [b]);
    }
  }

  lemma CompleteFollows(s: Scan, t: Scan, all: seq<Byte>)
    requires Full(t) && t.phase == s.phase && !t.phase.Checksum? && |all| <= LONGEST_SLOT && Wants(t) == Some(0)
    requires t.pos == |all| && t.head <= all
    requires t.phase.Header? || t.phase.SegmentHeader? || t.phase.SegmentData? ==>
      |t.head| == (if t.pos < HEAD_LEN then t.pos else HEAD_LEN)
    requires !t.phase.Header? ==> |t.head| >= HEADER_LEN && HeaderError(t.head) == None && t.segments == t.head[1] as nat
    requires t.phase.Padding? ==> (t.pos + 1) % 16 == 0
    requires !t.phase.Hash? ==> t.hashStart == None && t.hashed == all
    requires t.phase.Hash? ==>
      t.hashStart.Some? && t.hashStart.value <= |all| && t.hashStart.value % 16 == 0
      && t.hashed == all[..t.hashStart.value] && t.digest == all[t.hashStart.value..]
    ensures Complete(t).Ok? ==> Follows(Complete(t).value, all) && HeadFills(Complete(t).value)
  {
    hide HeaderError, AfterSegment, Le32;
    if Complete(t).Ok? {
      match t.phase
      case Header =>
        AfterSegmentFollows(t.(segments := t.head[1] as nat, segmentsLeft := t.head[1] as nat), all);
      case SegmentHeader =>
        var n := Le32(t.segHdr[4], t.segHdr[5], t.segHdr[6], t.segHdr[7]);
        AfterSegmentFollows(t.(segHdr := [], segmentsLeft := t.segmentsLeft - 1, segRemaining := n), all);
      case SegmentData => AfterSegmentFollows(t, all);
      case Hash => assert all[t.hashStart.value..][..HASH_LEN] == all[t.hashStart.value..];
      case _ =>
    }
  }

  lemma {:induction false} BytesFollow(s: Scan, bs: seq<Byte>, body: seq<Byte>)
    requires Valid(s) && Follows(s, body) && HeadFills(s) && |body| + |bs| <= LONGEST_SLOT
    ensures Bytes(s, bs).Ok? ==> Follows(Bytes(s, bs).value, body + bs) && HeadFills(Bytes(s, bs).value)
    decreases |bs|
  {
    hide Step, Follows, HeadFills;
    if bs == [] {
      assert body + bs == body;
    } else {
      ByteFollows(s, bs[0], body);
      var p := Step(s, [bs[0]]);
      if p.Ok? {
        BytesFollow(p.value.scan, bs[1..], body + [bs[0]]);
        assert body + [bs[0]] + bs[1..] == body + bs;
      }
    }
  }

  /** What a body that is accepted is: the header and the descriptor pass their checks, the image ends
      with its own digest on a boundary of sixteen bytes, and the digest is of everything before it. */
  lemma AcceptedMeans(slotLen: nat, body: seq<Byte>, sha: seq<Byte> -> seq<Byte>)
    requires |body| <= LONGEST_SLOT
    requires Bytes(New(slotLen), body).Ok? && Finish(Bytes(New(slotLen), body).value, sha).Ok?
    ensures
      var image := Finish(Bytes(New(slotLen), body).value, sha).value;
      && HASH_LEN <= image.len <= |body| && image.len % 16 == 0 && image.trailing == |body| - image.len
      && image.digest == body[image.len - HASH_LEN..image.len] == sha(body[..image.len - HASH_LEN])
      && HEAD_LEN <= |body| && HeaderError(body[..HEAD_LEN]) == None && AppDescError(body[..HEAD_LEN]) == None
      && FrontIsOurs(body) && image.version == body[48..80] && image.segments == body[1] as nat
  {
    hide HeaderError, AppDescError, Bytes, Follows, Finish, FrontIsOurs, Valid, New;
    FrontIsOursExactlyWhen(body);
    ScannerFollows(slotLen, body);
    FinishMeans(Bytes(New(slotLen), body).value, body, sha);
  }

  lemma ScannerFollows(slotLen: nat, body: seq<Byte>)
    requires |body| <= LONGEST_SLOT && Bytes(New(slotLen), body).Ok?
    ensures Follows(Bytes(New(slotLen), body).value, body)
  {
    hide Bytes, Follows, HeadFills;
    NewFollows(slotLen);
    BytesFollow(New(slotLen), body, []);
    assert [] + body == body;
  }

  lemma NewFollows(slotLen: nat)
    ensures Follows(New(slotLen), []) && HeadFills(New(slotLen))
  {
  }

  lemma FinishMeans(s: Scan, body: seq<Byte>, sha: seq<Byte> -> seq<Byte>)
    requires Valid(s) && Follows(s, body) && Finish(s, sha).Ok?
    ensures
      var image := Finish(s, sha).value;
      && HASH_LEN <= image.len <= |body| && image.len % 16 == 0 && image.trailing == |body| - image.len
      && image.digest == body[image.len - HASH_LEN..image.len] == sha(body[..image.len - HASH_LEN])
      && HEAD_LEN <= |body| && HeaderError(body[..HEAD_LEN]) == None && AppDescError(body[..HEAD_LEN]) == None
      && image.version == body[48..80] && image.segments == body[1] as nat
  {
    hide HeaderError, AppDescError;
    assert s.head == body[..HEAD_LEN];
    assert s.head[48..80] == body[48..80] && s.head[1] == body[1];
    MoreSixteenths(s.hashStart.value);
  }

  lemma MoreSixteenths(h: nat)
    ensures h % 16 == 0 ==> (h + HASH_LEN) % 16 == 0
  {
  }
}
