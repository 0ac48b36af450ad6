/** What of a bad image is found before the first sector is erased, as something that can be read off the body:
    its length, its header and its segment table. */
module FrontCheck {
  import opened Common
  import opened ImageScan
  import opened Staging

  // -------------------------------------------------------------------------
  // The header
  // -------------------------------------------------------------------------

  lemma {:induction false} HeaderBytes(s: Scan, bs: seq<Byte>)
    requires Valid(s) && s.phase.Header? && |s.head| + |bs| < HEADER_LEN
    ensures Bytes(s, bs).Ok? && Bytes(s, bs).value.phase.Header? && Bytes(s, bs).value.head == s.head + bs
    decreases |bs|
  {
    if bs != [] {
      assert [bs[0]][..1] == [bs[0]];
      var t := Step(s, [bs[0]]).value.scan;
      HeaderBytes(t, bs[1..]);
      assert s.head + [bs[0]] + bs[1..] == s.head + bs;
    }
  }

  /** A body shorter than an image header is refused, but only after its sector has been erased: the
      front check has nothing to say about it. */
  lemma ShortBodyIsErasedFirst(slotLen: nat, body: seq<Byte>, sha: seq<Byte> -> seq<Byte>)
    requires |body| < HEADER_LEN
    ensures FrontPassed(slotLen, body) && Verdict(slotLen, body, sha) == Err(BadMagic)
  {
    HeaderBytes(New(slotLen), body);
  }

  lemma HeaderIsChecked(slotLen: nat, body: seq<Byte>)
    requires |body| >= HEADER_LEN && HeaderError(body[..HEADER_LEN]).Some?
    ensures Bytes(New(slotLen), body) == Err(HeaderError(body[..HEADER_LEN]).value)
  {
    hide HeaderError, Bytes;
    var n := HEADER_LEN - 1;
    HeaderBytes(New(slotLen), body[..n]);
    var s := Bytes(New(slotLen), body[..n]).value;
    assert body[..n] + body[n..] == body;
    BytesCat(New(slotLen), body[..n], body[n..]);
    assert body[..n] + [body[n]] == body[..HEADER_LEN];
    assert s.head == body[..n];
    LastHeaderByte(s, body[n]);
    FirstByteFails(s, body[n..]);
  }

  lemma LastHeaderByte(s: Scan, b: Byte)
    requires Valid(s) && s.phase.Header? && |s.head| == HEADER_LEN - 1 && HeaderError(s.head + [b]).Some?
    ensures Step(s, [b]) == Err(HeaderError(s.head + [b]).value)
  {
    hide HeaderError;
    assert [b][..1] == [b];
  }

  lemma FirstByteFails(s: Scan, bs: seq<Byte>)
    requires Valid(s) && bs != [] && Step(s, [bs[0]]).Err?
    ensures Bytes(s, bs) == Err(Step(s, [bs[0]]).error)
  {
    hide Step;
  }

  /** Checks 1 to 3, exactly: a body whose header is wrong is refused before anything is erased if and
      only if all of the header was there. `header` is what there is of it. */
  lemma WrongHeaderErasesNothingExactlyWhen(slotLen: nat, body: seq<Byte>)
    requires |body| >= HEADER_LEN ==> HeaderError(body[..HEADER_LEN]).Some?
    ensures !FrontPassed(slotLen, body) <==> |body| >= HEADER_LEN
  {
    hide HeaderError, Bytes, CheckFront;
    var first := FirstPart(body);
    if |body| >= HEADER_LEN {
      assert first[..HEADER_LEN] == body[..HEADER_LEN];
      HeaderIsChecked(slotLen, first);
    } else {
      HeaderBytes(New(slotLen), body);
      assert CheckFront(Bytes(New(slotLen), first).value) == None by { ShortHead(Bytes(New(slotLen), first).value); }
    }
  }

  lemma ShortHead(s: Scan)
    requires Valid(s) && |s.head| < HEAD_LEN
    ensures CheckFront(s) == None
  {
  }

  // -------------------------------------------------------------------------
  // The segment table
  // -------------------------------------------------------------------------

  /** Where the segment table of what there is of an image leads: to a segment with an impossible length, past
      the end of what there is, or to its end, with the checksum of all the segments' data. */
  datatype Table = Broken | RunsOut | Ends(at: nat, sum: Byte)

  function Segments(body: seq<Byte>, at: nat, left: nat, sum: Byte): (t: Table)
    requires at <= |body|
    ensures t.Ends? ==> at <= t.at <= |body|
    decreases left
  {
    if left == 0 then Ends(at, sum)
    else if |body| - at < 8 then RunsOut
    else
      var n := Le32(body[at + 4], body[at + 5], body[at + 6], body[at + 7]);
      if n % 4 != 0 || n >= SEGMENT_LIMIT then Broken
      else if |body| - (at + 8) < n then RunsOut
      else Segments(body, at + 8 + n, left - 1, XorAll(sum, body[at + 8..at + 8 + n]))
  }

  function TableOf(body: seq<Byte>): Table
    requires |body| >= HEADER_LEN
  {
    Segments(body, HEADER_LEN, body[1] as nat, CHECKSUM_SEED)
  }

  /** If the byte that ends the image is there, it is the checksum. */
  predicate ChecksumAgrees(body: seq<Byte>, end: nat, sum: Byte) {
    var c := end + PadFrom(end);
    c < |body| ==> body[c] == sum
  }

  /** After the table's end the image ends with the checksum, if it is there, and has its digest if that is. */
  predicate Closed(s: Scan, body: seq<Byte>, end: nat) {
    var c := end + PadFrom(end);
    (c < |body| ==> s.hashStart == Some(c + 1)) && (s.phase.Trailing? <==> c + 1 + HASH_LEN <= |body|)
  }

  function CopyOf(bs: seq<Byte>): seq<Byte> {
    if |bs| <= HEAD_LEN then bs else bs[..HEAD_LEN]
  }

  lemma FillCopy(a: seq<Byte>, b: seq<Byte>)
    ensures FillHead(CopyOf(a), b) == CopyOf(a + b)
  {
    var x, y := FillHead(CopyOf(a), b), CopyOf(a + b);
    assert |x| == |y|;
    assert forall i :: 0 <= i < |x| ==> x[i] == y[i];
  }

  // -------------------------------------------------------------------------
  // The scanner follows it
  // -------------------------------------------------------------------------

  /** Past the checksum the scanner finds no fault and copies nothing. */
  lemma {:induction false} HashFeeds(s: Scan, bs: seq<Byte>)
    requires Valid(s) && (s.phase.Hash? || s.phase.Trailing?)
    ensures
      var r := Feed(s, bs);
      && r.Ok? && r.value.head == s.head && r.value.hashStart == s.hashStart
      && (r.value.phase.Trailing? <==> s.phase.Trailing? || |s.digest| + |bs| >= HASH_LEN)
    decreases |bs|
  {
    if bs != [] {
      var p := Step(s, bs).value;
      HashFeeds(p.scan, bs[p.n..]);
    }
  }

  lemma ChecksumFeeds(s: Scan, bs: seq<Byte>)
    requires Valid(s) && s.phase.Checksum?
    ensures Feed(s, bs).Ok? <==> bs == [] || bs[0] == s.checksum
    ensures Feed(s, bs).Ok? ==>
      var t := Feed(s, bs).value;
      && t.head == s.head && (bs != [] ==> t.hashStart == Some(s.pos + 1))
      && (t.phase.Trailing? <==> |bs| >= 1 + HASH_LEN)
  {
    if bs != [] && bs[0] == s.checksum {
      var t := Step(s, bs).value.scan;
      HashFeeds(t, bs[1..]);
    }
  }

  /** The end of the table: the padding, the checksum and what is after it. */
  lemma EndFeeds(u: Scan, body: seq<Byte>, at: nat)
    requires at <= |body| && Valid(BeginPadding(u))
    ensures
      var r := Feed(BeginPadding(u), body[at..]);
      u.pos == at && u.digest == [] ==>
        && (r.Ok? <==> ChecksumAgrees(body, at, u.checksum))
        && (r.Ok? ==> r.value.head == u.head && Closed(r.value, body, at))
  {
    hide PadFrom;
    var s, rest, pad := BeginPadding(u), body[at..], PadFrom(u.pos);
    if pad == 0 {
      ChecksumFeeds(s, rest);
    } else if |rest| >= pad {
      var t := s.(pos := s.pos + pad, segRemaining := 0, hashed := s.hashed + rest[..pad], phase := Checksum);
      assert Step(s, rest) == Ok(Progress(t, pad));
      ChecksumFeeds(t, rest[pad..]);
    } else if rest != [] {
      assert rest[..|rest|] == rest && rest[|rest|..] == [];
      assert Step(s, rest).Ok?;
    }
  }

  /** The scanner at the head of a segment: `u` is what it knows. */
  predicate AtSegment(u: Scan, body: seq<Byte>, at: nat, left: nat, sum: Byte) {
    && at <= |body| && u.pos == at && u.head == CopyOf(body[..at]) && u.segHdr == [] && u.digest == []
    && u.segmentsLeft == left && u.checksum == sum
  }

  /** What it finds from there on. */
  predicate Finds(r: Result<Scan, Error>, body: seq<Byte>, table: Table)
    requires table.Ends? ==> table.at <= |body|
  {
    match table
    case Broken => r.Err?
    case RunsOut => r.Ok? && r.value.head == CopyOf(body) && !r.value.phase.Trailing?
    case Ends(at, sum) =>
      && (r.Ok? <==> ChecksumAgrees(body, at, sum))
      && (r.Ok? ==> r.value.head == CopyOf(body[..at]) && Closed(r.value, body, at))
  }

  /** A segment header of which there is not all. */
  lemma PartOfHeaderFeeds(u: Scan, body: seq<Byte>, at: nat, left: nat, sum: Byte)
    requires AtSegment(u, body, at, left, sum) && left > 0 && |body| - at < 8
    ensures Valid(AfterSegment(u)) && Finds(Feed(AfterSegment(u), body[at..]), body, RunsOut)
  {
    hide FillHead, CopyOf;
    CopyFits(body[..at]);
    var s, rest := AfterSegment(u), body[at..];
    assert body[..at] + rest == body;
    FillCopy(body[..at], rest);
    if rest != [] {
      assert rest[..|rest|] == rest && rest[|rest|..] == [];
      assert Step(s, rest).Ok?;
    } else {
      assert body[..at] == body;
    }
  }

  lemma CopyFits(bs: seq<Byte>)
    ensures |CopyOf(bs)| <= HEAD_LEN
  {
  }

  /** A whole segment header, and what the scanner makes of it. */
  lemma HeaderFeeds(u: Scan, body: seq<Byte>, at: nat, left: nat, sum: Byte) returns (t: Scan)
    requires AtSegment(u, body, at, left, sum) && left > 0 && |body| - at >= 8
    ensures Valid(AfterSegment(u)) && AtSegment(t, body, at + 8, left - 1, sum)
    ensures
      var n := Le32(body[at + 4], body[at + 5], body[at + 6], body[at + 7]);
      && t.segRemaining == n && t.phase.SegmentHeader?
      && Step(AfterSegment(u), body[at..]) ==
         (if n % 4 != 0 || n >= SEGMENT_LIMIT then Err(BadChecksum)
          else Ok(Progress(if n != 0 then t.(phase := SegmentData) else AfterSegment(t), 8)))
  {
    hide FillHead, CopyOf, Le32, BeginPadding, Complete, Step;
    CopyFits(body[..at]);
    CopyFits(body[..at + 8]);
    var s, bs := AfterSegment(u), body[at..][..8];
    FillCopy(body[..at], bs);
    assert body[..at] + bs == body[..at + 8];
    assert bs == body[at..at + 8] && [] + bs == bs;
    var n := Le32(body[at + 4], body[at + 5], body[at + 6], body[at + 7]);
    t := s.(pos := at + 8, head := CopyOf(body[..at + 8]), segHdr := [], segmentsLeft := left - 1, segRemaining := n,
            hashed := s.hashed + bs);
    var full := t.(segHdr := bs, segmentsLeft := left, segRemaining := s.segRemaining);
    assert Absorb(s, bs) == full;
    TakesHeader(s, body[at..], full);
    HeaderCompletes(full, t, n);
  }

  lemma TakesHeader(s: Scan, bs: seq<Byte>, full: Scan)
    requires Valid(s) && s.phase.SegmentHeader? && s.segHdr == [] && |bs| >= 8 && Absorb(s, bs[..8]) == full
    ensures Full(full)
    ensures
      Step(s, bs) ==
        match Complete(full) { case Ok(next) => Ok(Progress(next, 8)) case Err(e) => Err(e) }
  {
    hide FillHead, Complete;
  }

  lemma HeaderCompletes(full: Scan, t: Scan, n: nat)
    requires Full(full) && full.phase.SegmentHeader? && t.phase.SegmentHeader?
    requires n == Le32(full.segHdr[4], full.segHdr[5], full.segHdr[6], full.segHdr[7])
    requires t == full.(segHdr := [], segmentsLeft := full.segmentsLeft - 1, segRemaining := n)
    ensures
      Complete(full) ==
        if n % 4 != 0 || n >= SEGMENT_LIMIT then Err(BadChecksum)
        else Ok(if n != 0 then t.(phase := SegmentData) else AfterSegment(t))
  {
    hide Le32, BeginPadding;
  }

  /** A segment's data, all of it or what there is. */
  lemma DataFeeds(t: Scan, body: seq<Byte>, at: nat, left: nat, sum: Byte) returns (u: Scan)
    requires AtSegment(t, body, at, left, sum) && t.segRemaining > 0
    ensures Valid(t.(phase := SegmentData))
    ensures |body| - at < t.segRemaining ==> Finds(Feed(t.(phase := SegmentData), body[at..]), body, RunsOut)
    ensures
      var n := t.segRemaining;
      |body| - at >= n ==>
        && AtSegment(u, body, at + n, left, XorAll(sum, body[at..at + n]))
        && Step(t.(phase := SegmentData), body[at..]) == Ok(Progress(AfterSegment(u), n))
  {
    hide FillHead, CopyOf, XorAll, BeginPadding;
    CopyFits(body[..at]);
    var s, n, rest := t.(phase := SegmentData), t.segRemaining, body[at..];
    u := s;
    if |rest| >= n {
      CopyFits(body[..at + n]);
      FillCopy(body[..at], rest[..n]);
      assert body[..at] + rest[..n] == body[..at + n] && rest[..n] == body[at..at + n];
      u := Absorb(s, rest[..n]);
    } else if rest != [] {
      assert rest[..|rest|] == rest && rest[|rest|..] == [] && body[..at] + rest == body;
      FillCopy(body[..at], rest);
      CopyFits(body);
      assert Step(s, rest).Ok?;
    } else {
      assert body[..at] == body;
    }
  }

  lemma EndFinds(u: Scan, body: seq<Byte>, at: nat, sum: Byte)
    requires AtSegment(u, body, at, 0, sum)
    ensures Valid(AfterSegment(u)) && Finds(Feed(AfterSegment(u), body[at..]), body, Ends(at, sum))
  {
    hide CopyOf, ChecksumAgrees, PadFrom, Feed;
    CopyFits(body[..at]);
    EndFeeds(u, body, at);
  }

  lemma FeedAfter(s: Scan, bs: seq<Byte>)
    requires Valid(s) && bs != []
    ensures Step(s, bs).Ok? ==> Feed(s, bs) == Feed(Step(s, bs).value.scan, bs[Step(s, bs).value.n..])
    ensures Step(s, bs).Err? ==> Feed(s, bs) == Err(Step(s, bs).error)
  {
    hide Step;
  }

  /** From the head of a segment on, the scanner finds what the table says. */
  lemma {:induction false} TableFeeds(u: Scan, body: seq<Byte>, at: nat, left: nat, sum: Byte)
    requires AtSegment(u, body, at, left, sum)
    ensures Valid(AfterSegment(u)) && Finds(Feed(AfterSegment(u), body[at..]), body, Segments(body, at, left, sum))
    decreases left
  {
    hide Finds, Step, Valid, Feed, Le32, AfterSegment, XorAll, AtSegment;
    if left == 0 {
      EndFinds(u, body, at, sum);
    } else if |body| - at < 8 {
      PartOfHeaderFeeds(u, body, at, left, sum);
    } else {
      var t := HeaderFeeds(u, body, at, left, sum);
      var n := t.segRemaining;
      FeedAfter(AfterSegment(u), body[at..]);
      assert body[at..][8..] == body[at + 8..];
      if n % 4 != 0 || n >= SEGMENT_LIMIT {
        FindsNone(Feed(AfterSegment(u), body[at..]), body);
      } else if n == 0 {
        NoData(body, at + 8, sum);
        TableFeeds(t, body, at + 8, left - 1, sum);
      } else {
        var v := DataFeeds(t, body, at + 8, left - 1, sum);
        if |body| - (at + 8) >= n {
          FeedAfter(t.(phase := SegmentData), body[at + 8..]);
          assert body[at + 8..][n..] == body[at + 8 + n..];
          TableFeeds(v, body, at + 8 + n, left - 1, XorAll(sum, body[at + 8..at + 8 + n]));
        }
      }
    }
  }

  lemma FindsNone(r: Result<Scan, Error>, body: seq<Byte>)
    ensures r.Err? ==> Finds(r, body, Broken)
  {
  }

  lemma NoData(body: seq<Byte>, at: nat, sum: Byte)
    requires at <= |body|
    ensures XorAll(sum, body[at..at]) == sum
  {
  }

  lemma ScanFinds(slotLen: nat, body: seq<Byte>)
    requires |body| >= HEADER_LEN && HeaderError(body[..HEADER_LEN]).None?
    ensures Finds(Bytes(New(slotLen), body), body, TableOf(body))
  {
    hide Finds, Segments, Bytes, HeaderError, AfterSegment;
    FeedIsBytes(New(slotLen), body);
    var head := body[..HEADER_LEN];
    var u := New(slotLen).(pos := HEADER_LEN, head := head, hashed := head, segments := body[1] as nat,
                           segmentsLeft := body[1] as nat);
    assert [] + head == head && body[..HEADER_LEN] == CopyOf(body[..HEADER_LEN]);
    assert Step(New(slotLen), body) == Ok(Progress(AfterSegment(u), HEADER_LEN));
    TableFeeds(u, body, HEADER_LEN, body[1] as nat, CHECKSUM_SEED);
  }

  // -------------------------------------------------------------------------
  // What is found before the first erase
  // -------------------------------------------------------------------------

  /** The descriptor is among the bytes there are, and is the right one. */
  predicate DescriptorIsRight(body: seq<Byte>) {
    |body| >= HEAD_LEN && AppDescError(body[..HEAD_LEN]).None?
  }

  /** When the first sector of a body with a good header is erased, for every body: its segment table is not
      broken in that sector, nor its checksum wrong there; and if it has a wrong descriptor, its segments end
      before the descriptor does, in its 112th byte, for only what is in a segment is looked at. */
  lemma FrontPassedExactlyWhen(slotLen: nat, body: seq<Byte>)
    requires |body| >= HEADER_LEN && HeaderError(body[..HEADER_LEN]).None?
    ensures FrontPassed(slotLen, body) <==>
      match TableOf(FirstPart(body))
      case Broken => false
      case RunsOut => |body| < HEAD_LEN || DescriptorIsRight(body)
      case Ends(at, sum) => ChecksumAgrees(FirstPart(body), at, sum) && (at < HEAD_LEN || DescriptorIsRight(body))
  {
    hide Bytes, AppDescError, HeaderError, Segments, ChecksumAgrees;
    var first := FirstPart(body);
    assert first[..HEADER_LEN] == body[..HEADER_LEN];
    ScanFinds(slotLen, first);
    if |body| >= HEAD_LEN {
      assert CopyOf(first) == body[..HEAD_LEN];
      if TableOf(first).Ends? && TableOf(first).at >= HEAD_LEN {
        assert CopyOf(first[..TableOf(first).at]) == body[..HEAD_LEN];
      }
    }
  }

  /** Check 4, exactly: a body whose descriptor is wrong or not all there is refused before anything is erased
      if and only if its table is broken or its checksum wrong within the first sector, or all 112 bytes of its
      front are there and none of them comes after its last segment. */
  lemma WrongDescriptorErasesNothingExactlyWhen(slotLen: nat, body: seq<Byte>)
    requires |body| >= HEADER_LEN && HeaderError(body[..HEADER_LEN]).None? && !DescriptorIsRight(body)
    ensures !FrontPassed(slotLen, body) <==>
      match TableOf(FirstPart(body))
      case Broken => true
      case RunsOut => |body| >= HEAD_LEN
      case Ends(at, sum) => at >= HEAD_LEN || !ChecksumAgrees(FirstPart(body), at, sum)
  {
    hide HeaderError, DescriptorIsRight, FrontPassed, ChecksumAgrees;
    FrontPassedExactlyWhen(slotLen, body);
  }

  /** And it is refused in the end. */
  lemma WrongDescriptorIsRefused(slotLen: nat, body: seq<Byte>, sha: seq<Byte> -> seq<Byte>)
    requires |body| <= LONGEST_SLOT && !DescriptorIsRight(body)
    ensures Verdict(slotLen, body, sha).Err?
  {
    hide Bytes, AppDescError, HeaderError, Finish, CheckFront;
    if Verdict(slotLen, body, sha).Ok? {
      AcceptedMeans(slotLen, body, sha);
    }
  }

  /** The shortest image there is, in a body of 112 bytes: no segments, padding and the checksum of nothing. */
  function EmptyImage(): (body: seq<Byte>)
    ensures |body| == HEAD_LEN
  {
    [0xE9] + seq(22, _ => 0) + [1] + seq(7, _ => 0) + [0xEF] + seq(80, _ => 0)
  }

  /** Its sector is erased, although the bytes where the descriptor should be are all there and all wrong. */
  lemma WrongDescriptorIsErasedFirst(slotLen: nat, sha: seq<Byte> -> seq<Byte>)
    ensures var body := EmptyImage();
      && HeaderError(body[..HEADER_LEN]).None? && !DescriptorIsRight(body)
      && FrontPassed(slotLen, body) && Verdict(slotLen, body, sha) == Err(BadSha256)
  {
    hide Bytes;
    var body := EmptyImage();
    assert body[..HEAD_LEN] == body && body[APP_DESC_OFFSET..][..4][0] == 0;
    assert PadFrom(HEADER_LEN) == 7 && body[31] == CHECKSUM_SEED;
    assert TableOf(body) == Ends(HEADER_LEN, CHECKSUM_SEED);
    FrontPassedExactlyWhen(slotLen, body);
    ScanFinds(slotLen, body);
  }
}
