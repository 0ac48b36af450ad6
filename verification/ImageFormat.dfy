/** What an image is, as the one who writes it lays it out, and that the checks accept exactly that: nothing else gets
    through, and nothing that is laid out so is refused. */
module ImageFormat {
  import opened Common
  import opened ImageScan
  import opened Staging
  import opened FrontCheck

  /** Where it is loaded to, how long it is, and its data. */
  datatype Segment = Segment(address: seq<Byte>, length: seq<Byte>, data: seq<Byte>)

  /** The four bytes of this number, low-order first. */
  predicate Says(length: seq<Byte>, n: nat) {
    |length| == 4
    && n == length[0] as nat + 256 * (length[1] as nat + 256 * (length[2] as nat + 256 * (length[3] as nat)))
  }

  /** A whole number of words, less than sixteen megabytes, and as long as it says. */
  predicate Proper(g: Segment) {
    |g.address| == 4 && Says(g.length, |g.data|) && |g.data| % 4 == 0 && |g.data| < 16 * 1024 * 1024
  }

  predicate AllProper(segs: seq<Segment>) {
    forall g :: g in segs ==> Proper(g)
  }

  function Laid(segs: seq<Segment>): seq<Byte>
    requires AllProper(segs)
  {
    if segs == [] then []
    else
      assert segs[0] in segs;
      segs[0].address + segs[0].length + segs[0].data + Laid(segs[1..])
  }

  function AllData(segs: seq<Segment>): seq<Byte> {
    if segs == [] then [] else segs[0].data + AllData(segs[1..])
  }

  /** The parts an image is written from, and whatever comes after it. */
  datatype Parts = Parts(
    header: seq<Byte>, segments: seq<Segment>, padding: seq<Byte>, checksum: Byte, digest: seq<Byte>, after: seq<Byte>)

  function Front(p: Parts): seq<Byte>
    requires AllProper(p.segments)
  {
    p.header + Laid(p.segments)
  }

  /** What the digest is of. */
  function Signed(p: Parts): seq<Byte>
    requires AllProper(p.segments)
  {
    Front(p) + p.padding + [p.checksum]
  }

  function Written(p: Parts): seq<Byte>
    requires AllProper(p.segments)
  {
    Signed(p) + p.digest + p.after
  }

  /** A well-formed image of this project: the header of 24 bytes with the number of segments, the descriptor in the
      segments, the fewest bytes of padding that let the checksum end a block of sixteen, the exclusive or of 0xEF
      and all the data, and the digest of everything before it. */
  predicate WellFormed(p: Parts, sha: seq<Byte> -> seq<Byte>) {
    && AllProper(p.segments)
    && |p.header| == 24 && p.header[1] as nat == |p.segments|
    && |Front(p)| >= 112 && FrontIsOurs(Front(p))
    && |p.padding| < 16 && |Signed(p)| % 16 == 0
    && p.checksum == XorAll(0xEF, AllData(p.segments))
    && |p.digest| == 32 && p.digest == sha(Signed(p))
  }

  // -------------------------------------------------------------------------
  // The pieces
  // -------------------------------------------------------------------------

  /** The exclusive or of the first and all the others, one after the other. */
  lemma {:induction false} XorAllIs(x: Byte, bs: seq<Byte>, b: Byte)
    ensures XorAll(x, []) == x && XorAll(x, bs + [b]) == XorAll(x, bs) ^ b
  {
    XorAllCat(x, bs, [b]);
    assert [b][1..] == [];
  }

  lemma LengthIsRead(body: seq<Byte>, at: nat, n: nat)
    requires at + 4 <= |body|
    ensures Says(body[at..at + 4], n) <==> Le32(body[at], body[at + 1], body[at + 2], body[at + 3]) == n
  {
  }

  /** The fewest that let the checksum end a block of sixteen. */
  lemma PaddingIs(end: nat, n: nat)
    requires end <= LONGEST_SLOT
    ensures PadFrom(end) == n <==> n < 16 && (end + n + 1) % 16 == 0
  {
    PadAligned(end);
    var d := n - PadFrom(end);
    assert PadFrom(end) < 16;
    if n < 16 && (end + n + 1) % 16 == 0 {
      assert end + n + 1 == end + PadFrom(end) + 1 + d;
      assert d % 16 == 0;
    }
  }

  // -------------------------------------------------------------------------
  // From the segments to the table, and back
  // -------------------------------------------------------------------------

  lemma LaidFirst(segs: seq<Segment>)
    requires segs != [] && AllProper(segs)
    ensures
      var g := segs[0];
      && |g.address| == 4 && |g.length| == 4 && Says(g.length, |g.data|) && |g.data| % 4 == 0 && |g.data| < SEGMENT_LIMIT
      && AllProper(segs[1..]) && Laid(segs) == g.address + g.length + g.data + Laid(segs[1..])
  {
    assert segs[0] in segs && Proper(segs[0]);
  }

  lemma FourCut(a: seq<Byte>, b: seq<Byte>, c: seq<Byte>, d: seq<Byte>)
    requires |a| == 4 && |b| == 4
    ensures
      var all, n := a + b + c + d, |c|;
      |all| == 8 + n + |d| && all[4..8] == b && all[8..8 + n] == c && all[8 + n..|all|] == d
  {
  }

  lemma Slices(body: seq<Byte>, at: nat, part: seq<Byte>, lo: nat, hi: nat)
    requires at <= |body| && part <= body[at..] && lo <= hi <= |part|
    ensures at + hi <= |body| && body[at + lo..at + hi] == part[lo..hi]
  {
    assert body[at..][lo..hi] == body[at + lo..at + hi];
    assert body[at..][..|part|] == part;
  }

  lemma StillThere(body: seq<Byte>, from: nat, part: seq<Byte>)
    requires from + |part| <= |body| && body[from..from + |part|] == part
    ensures part <= body[from..]
  {
    assert body[from..][..|part|] == body[from..from + |part|];
  }

  /** The first segment of what is laid out from `at` on. */
  lemma FirstIsThere(body: seq<Byte>, at: nat, segs: seq<Segment>)
    requires segs != [] && AllProper(segs) && at <= |body| && Laid(segs) <= body[at..]
    ensures AllProper(segs[1..])
    ensures
      var n := |segs[0].data|;
      && |Laid(segs)| == 8 + n + |Laid(segs[1..])| && at + |Laid(segs)| <= |body| && n % 4 == 0 && n < SEGMENT_LIMIT
      && Says(body[at + 4..at + 8], n) && body[at + 8..at + 8 + n] == segs[0].data
      && Laid(segs[1..]) <= body[at + 8 + n..]
  {
    hide Laid, AllProper, Proper, Says;
    LaidFirst(segs);
    var g, n, all := segs[0], |segs[0].data|, Laid(segs);
    FourCut(g.address, g.length, g.data, Laid(segs[1..]));
    Slices(body, at, all, 4, 8);
    Slices(body, at, all, 8, 8 + n);
    Slices(body, at, all, 8 + n, |all|);
    StillThere(body, at + 8 + n, Laid(segs[1..]));
  }

  lemma NothingSummed(sum: Byte)
    ensures XorAll(sum, AllData([])) == sum
  {
  }

  lemma OneMoreSummed(sum: Byte, segs: seq<Segment>)
    requires segs != []
    ensures XorAll(sum, AllData(segs)) == XorAll(XorAll(sum, segs[0].data), AllData(segs[1..]))
  {
    hide XorAll;
    XorAllCat(sum, segs[0].data, AllData(segs[1..]));
  }

  lemma {:induction false} LaidIsRead(body: seq<Byte>, at: nat, segs: seq<Segment>, sum: Byte)
    requires AllProper(segs) && at <= |body| && Laid(segs) <= body[at..]
    ensures
      at + |Laid(segs)| <= |body|
      && Segments(body, at, |segs|, sum) == Ends(at + |Laid(segs)|, XorAll(sum, AllData(segs)))
    decreases |segs|
  {
    hide Le32, XorAll, AllData, Laid, AllProper, Says;
    if segs == [] {
      NothingSummed(sum);
      NothingLaid();
    } else {
      var g, n := segs[0], |segs[0].data|;
      FirstIsThere(body, at, segs);
      LengthIsRead(body, at + 4, n);
      LaidIsRead(body, at + 8 + n, segs[1..], XorAll(sum, g.data));
      OneMoreSummed(sum, segs);
    }
  }

  lemma NothingLaid()
    ensures AllProper([]) && Laid([]) == []
  {
  }

  lemma {:induction false} ReadIsLaid(body: seq<Byte>, at: nat, left: nat, sum: Byte) returns (segs: seq<Segment>)
    requires at <= |body| && Segments(body, at, left, sum).Ends?
    ensures AllProper(segs) && |segs| == left
    ensures
      var t := Segments(body, at, left, sum);
      body[at..t.at] == Laid(segs) && t.sum == XorAll(sum, AllData(segs))
    decreases left
  {
    hide Le32, XorAll, AllData, Laid, AllProper, Says;
    if left == 0 {
      segs := [];
      NothingSummed(sum);
      NothingLaid();
    } else {
      var n := Le32(body[at + 4], body[at + 5], body[at + 6], body[at + 7]);
      var g := Segment(body[at..at + 4], body[at + 4..at + 8], body[at + 8..at + 8 + n]);
      var more := ReadIsLaid(body, at + 8 + n, left - 1, XorAll(sum, g.data));
      segs := [g] + more;
      LengthIsRead(body, at + 4, n);
      FirstLaid(body, at, Segments(body, at, left, sum).at, g, more);
      assert segs[1..] == more;
      OneMoreSummed(sum, segs);
    }
  }

  lemma FirstLaid(body: seq<Byte>, at: nat, end: nat, g: Segment, more: seq<Segment>)
    requires Proper(g) && AllProper(more) && at + 8 + |g.data| <= end <= |body|
    requires
      && body[at..at + 4] == g.address && body[at + 4..at + 8] == g.length
      && body[at + 8..at + 8 + |g.data|] == g.data && body[at + 8 + |g.data|..end] == Laid(more)
    ensures AllProper([g] + more) && body[at..end] == Laid([g] + more)
  {
    hide Proper;
    assert ([g] + more)[1..] == more;
    var n := |g.data|;
    Joined(body, at, at + 4, at + 8);
    Joined(body, at, at + 8, at + 8 + n);
    Joined(body, at, at + 8 + n, end);
  }

  lemma Joined(body: seq<Byte>, a: nat, b: nat, c: nat)
    requires a <= b <= c <= |body|
    ensures body[a..c] == body[a..b] + body[b..c]
  {
  }

  // -------------------------------------------------------------------------
  // Accepted exactly when it is an image
  // -------------------------------------------------------------------------

  predicate Accepted(slotLen: nat, body: seq<Byte>, sha: seq<Byte> -> seq<Byte>) {
    Bytes(New(slotLen), body).Ok? && Finish(Bytes(New(slotLen), body).value, sha).Ok?
  }

  /** Where the parts are. */
  lemma WrittenParts(p: Parts)
    requires AllProper(p.segments) && |p.header| == 24 && |p.digest| == 32
    ensures
      var body, at, c := Written(p), |Front(p)|, |Front(p)| + |p.padding|;
      && Front(p) <= body && 24 <= at && |Signed(p)| == c + 1 && c + 33 <= |body|
      && Laid(p.segments) <= body[24..] && at == 24 + |Laid(p.segments)|
      && body[c] == p.checksum && body[..c + 1] == Signed(p) && body[c + 1..c + 33] == p.digest
  {
    hide Laid;
    var body := Written(p);
    assert body == p.header + (Laid(p.segments) + (p.padding + [p.checksum] + p.digest + p.after));
    assert body[24..] == Laid(p.segments) + (p.padding + [p.checksum] + p.digest + p.after);
    assert body == Signed(p) + (p.digest + p.after);
  }

  lemma SameFront(a: seq<Byte>, b: seq<Byte>)
    requires |a| >= 112 && a <= b
    ensures FrontIsOurs(a) <==> FrontIsOurs(b)
  {
    assert a[..112] == b[..112];
    assert a[32..36] == a[..112][32..36] && b[32..36] == b[..112][32..36];
    assert a[80..90] == a[..112][80..90] && b[80..90] == b[..112][80..90];
    assert forall i :: 0 <= i < 112 ==> a[i] == b[i];
  }

  lemma HeaderIsFine(body: seq<Byte>)
    requires FrontIsOurs(body)
    ensures HeaderError(body[..HEADER_LEN]).None?
  {
    HeaderErrorExactly(body[..HEADER_LEN]);
  }

  /** What the scanner knows of a body whose image ends with the checksum at `c`. */
  lemma Digested(s: Scan, body: seq<Byte>, c: nat)
    requires Valid(s) && Follows(s, body) && s.phase.Trailing? && s.hashStart == Some(c + 1)
    ensures c + 33 <= |body| && s.hashed == body[..c + 1] && s.digest == body[c + 1..c + 33]
  {
    hide HeaderError;
  }

  /** What is laid out as an image is accepted. */
  lemma WrittenIsAccepted(slotLen: nat, p: Parts, sha: seq<Byte> -> seq<Byte>)
    requires WellFormed(p, sha) && |Written(p)| <= LONGEST_SLOT
    ensures Accepted(slotLen, Written(p), sha)
  {
    hide Bytes, HeaderError, AppDescError, FrontIsOurs, Laid, XorAll, AllData, Segments, PadFrom, Signed, Written, Front;
    hide AllProper, Follows;
    var body, at, c := Written(p), |Front(p)|, |Front(p)| + |p.padding|;
    WrittenParts(p);
    SameFront(Front(p), body);
    HeaderIsFine(body);
    SegmentCount(p);
    LaidIsRead(body, 24, p.segments, CHECKSUM_SEED);
    ScanFinds(slotLen, body);
    PaddingIs(at, |p.padding|);
    var s := Bytes(New(slotLen), body).value;
    ScannerFollows(slotLen, body);
    Digested(s, body, c);
    FrontIsOursExactlyWhen(body);
    assert body[..at][..HEAD_LEN] == body[..HEAD_LEN];
    FinishAccepts(s, sha);
  }

  lemma SegmentCount(p: Parts)
    requires AllProper(p.segments) && |p.header| == 24
    ensures Written(p)[1] == p.header[1]
  {
    hide Laid;
  }

  lemma FinishAccepts(s: Scan, sha: seq<Byte> -> seq<Byte>)
    requires Valid(s) && s.phase.Trailing? && |s.head| == HEAD_LEN && AppDescError(s.head).None?
    ensures Finish(s, sha).Ok? <==> sha(s.hashed) == s.digest
  {
    hide AppDescError;
  }

  lemma FinishedIs(s: Scan, sha: seq<Byte> -> seq<Byte>)
    requires Valid(s) && Finish(s, sha).Ok?
    ensures s.phase.Trailing? && |s.head| == HEAD_LEN && sha(s.hashed) == s.digest
  {
    hide AppDescError;
  }

  /** Where the table of an accepted body ends, and what is there. */
  lemma AcceptedEnds(slotLen: nat, body: seq<Byte>, sha: seq<Byte> -> seq<Byte>)
    requires |body| <= LONGEST_SLOT && Accepted(slotLen, body, sha)
    ensures FrontIsOurs(body) && TableOf(body).Ends?
    ensures
      var at := TableOf(body).at;
      var c := at + PadFrom(at);
      && 112 <= at && c + 33 <= |body|
      && body[c] == TableOf(body).sum && body[c + 1..c + 33] == sha(body[..c + 1])
  {
    hide Bytes, HeaderError, AppDescError, FrontIsOurs, Segments, PadFrom, Finish, Follows, ChecksumAgrees;
    AcceptedMeans(slotLen, body, sha);
    HeaderIsFine(body);
    ScanFinds(slotLen, body);
    ScannerFollows(slotLen, body);
    var s, t := Bytes(New(slotLen), body).value, TableOf(body);
    FinishedIs(s, sha);
    CopyFits(body[..t.at]);
    Digested(s, body, t.at + PadFrom(t.at));
    AgreesIs(body, t.at, t.sum);
  }

  lemma AgreesIs(body: seq<Byte>, end: nat, sum: Byte)
    requires ChecksumAgrees(body, end, sum) && end + PadFrom(end) < |body|
    ensures body[end + PadFrom(end)] == sum
  {
    hide PadFrom;
  }

  /** The parts of a body whose table ends at `at`. */
  lemma TakenApart(body: seq<Byte>, at: nat, c: nat, segs: seq<Segment>) returns (p: Parts)
    requires 24 <= at <= c && c + 33 <= |body| && AllProper(segs) && body[24..at] == Laid(segs)
    ensures p == Parts(body[..24], segs, body[at..c], body[c], body[c + 1..c + 33], body[c + 33..])
    ensures Front(p) == body[..at] && Signed(p) == body[..c + 1] && Written(p) == body
  {
    hide Laid;
    p := Parts(body[..24], segs, body[at..c], body[c], body[c + 1..c + 33], body[c + 33..]);
    assert Front(p) == body[..at];
    assert Signed(p) == body[..c + 1];
  }

  /** What is accepted is laid out as an image. */
  lemma AcceptedIsWritten(slotLen: nat, body: seq<Byte>, sha: seq<Byte> -> seq<Byte>) returns (p: Parts)
    requires |body| <= LONGEST_SLOT && Accepted(slotLen, body, sha)
    ensures WellFormed(p, sha) && Written(p) == body
  {
    hide Accepted, FrontIsOurs, Laid, XorAll, AllData, Segments, PadFrom, Front, Signed, Written;
    AcceptedEnds(slotLen, body, sha);
    var at := TableOf(body).at;
    var c := at + PadFrom(at);
    PaddingIs(at, PadFrom(at));
    var segs := ReadIsLaid(body, 24, body[1] as nat, CHECKSUM_SEED);
    p := TakenApart(body, at, c, segs);
    SameFront(body[..at], body);
  }

  /** A body is answered with success exactly when it is an image and anything after it: for every body that fits, and
      whatever it is. */
  lemma AcceptedExactlyWhen(slotLen: nat, body: seq<Byte>, sha: seq<Byte> -> seq<Byte>)
    requires |body| <= LONGEST_SLOT
    ensures Verdict(slotLen, body, sha).Ok? <==> exists p :: WellFormed(p, sha) && Written(p) == body
  {
    hide Bytes, Finish, Written, Front, Signed, CheckFront, AllData, XorAll;
    if Verdict(slotLen, body, sha).Ok? {
      var p := AcceptedIsWritten(slotLen, body, sha);
    } else if exists p :: WellFormed(p, sha) && Written(p) == body {
      var p :| WellFormed(p, sha) && Written(p) == body;
      WrittenIsAccepted(slotLen, p, sha);
      FrontIsPassed(slotLen, body, sha);
    }
  }

  lemma FrontIsPassed(slotLen: nat, body: seq<Byte>, sha: seq<Byte> -> seq<Byte>)
    requires |body| <= LONGEST_SLOT && Accepted(slotLen, body, sha)
    ensures FrontPassed(slotLen, body)
  {
    hide Bytes, AppDescError, HeaderError, Finish;
    AcceptedMeans(slotLen, body, sha);
    var first := FirstPart(body);
    assert body == first + body[|first|..];
    BytesCat(New(slotLen), first, body[|first|..]);
    NewFollows(slotLen);
    BytesFollow(New(slotLen), first, []);
    assert [] + first == first;
    var s := Bytes(New(slotLen), first).value;
    if |s.head| == HEAD_LEN {
      assert s.head == body[..HEAD_LEN];
    }
  }

  /** The smallest image there is: one segment, just long enough for the descriptor. */
  function Smallest(sha: seq<Byte> -> seq<Byte>): (p: Parts)
    ensures AllProper(p.segments)
  {
    var data := [0x32, 0x54, 0xCD, 0xAB] + seq(44, _ => 0) + Ascii("screeny-fw") + seq(22, _ => 0);
    assert |data| == 80;
    var p := Parts([0xE9, 1] + seq(21, _ => 0) + [1], [Segment([0, 0, 0, 0], [80, 0, 0, 0], data)], seq(15, _ => 0),
                   XorAll(0xEF, data), [], []);
    p.(digest := sha(Signed(p)))
  }

  /** So there are images to accept, whatever the digest is. */
  lemma ThereAreImages(sha: seq<Byte> -> seq<Byte>)
    requires forall bs :: |sha(bs)| == 32
    ensures WellFormed(Smallest(sha), sha)
  {
    hide XorAll;
    var p := Smallest(sha);
    var g := p.segments[0];
    assert p.segments[1..] == [];
    assert AllData(p.segments) == g.data + [] == g.data;
    LaidFirst(p.segments);
    NothingLaid();
    var front := Front(p);
    assert front == p.header + g.address + g.length + g.data;
    assert front[32..36] == g.data[..4] == [0x32, 0x54, 0xCD, 0xAB];
    assert front[80..90] == g.data[48..58] == Ascii("screeny-fw");
  }
}
