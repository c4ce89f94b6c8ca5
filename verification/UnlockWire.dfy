/**
  The request stream between the compositor and hikari-unlocker: a 16-byte
  native header (sequence number, length, four bytes of padding) followed by
  the password, written by src/lock_mode.c and read back by
  hikari_unlocker.c. The reader is a machine that is fed whatever pieces the
  pipe yields.
 */
module UnlockWire {
  import opened Utf8
  import opened PasswordField

  const HEADER_SIZE: nat := 16
  const SEQ_LIMIT: nat := 0x1_0000_0000_0000_0000

  datatype Submission = Submission(seqNo: nat, password: seq<byte>, padding: seq<byte>)

  predicate Sendable(r: Submission) {
    r.seqNo < SEQ_LIMIT && IsPassword(r.password) && |r.padding| == 4
  }

  /** One submitted attempt. The padding of the header struct holds anything. */
  type Request = r: Submission | Sendable(r) witness Submission(0, [], [0, 0, 0, 0])

  // ------------------------------------------------------- little-endian numbers

  function Pow256(k: nat): (p: nat)
    ensures p > 0
  {
    if k == 0 then 1 else 256 * Pow256(k - 1)
  }

  function ToBytes(n: nat, width: nat): (s: seq<byte>)
    ensures |s| == width
    decreases width
  {
    if width == 0 then [] else [n % 256] + ToBytes(n / 256, width - 1)
  }

  function FromBytes(s: seq<byte>): nat {
    if s == [] then 0 else s[0] + 256 * FromBytes(s[1..])
  }

  lemma {:induction false} NumberRoundTrip(n: nat, width: nat)
    requires n < Pow256(width)
    ensures FromBytes(ToBytes(n, width)) == n
    decreases width
  {
    if width == 0 {
    } else {
      NumberRoundTrip(n / 256, width - 1);
      assert ToBytes(n, width)[1..] == ToBytes(n / 256, width - 1);
    }
  }

  lemma Widths()
    ensures Pow256(8) == SEQ_LIMIT && Pow256(4) == 0x1_0000_0000
  {
    assert Pow256(4) == 256 * (256 * (256 * (256 * Pow256(0))));
    assert Pow256(8) == 256 * (256 * (256 * (256 * Pow256(4))));
  }

  // --------------------------------------------------------------- frames

  function Header(r: Request): (h: seq<byte>)
    ensures |h| == HEADER_SIZE
  {
    ToBytes(r.seqNo, 8) + ToBytes(|r.password|, 4) + r.padding
  }

  function Frame(r: Request): (f: seq<byte>)
    ensures |f| == HEADER_SIZE + |r.password|
  {
    Header(r) + r.password
  }

  ghost function Wire(rs: seq<Request>): seq<byte>
  {
    if rs == [] then [] else Wire(rs[..|rs| - 1]) + Frame(rs[|rs| - 1])
  }

  function HeaderSeq(h: seq<byte>): nat
    requires |h| == HEADER_SIZE
  {
    FromBytes(h[..8])
  }

  function HeaderLen(h: seq<byte>): nat
    requires |h| == HEADER_SIZE
  {
    FromBytes(h[8..12])
  }

  lemma HeaderRoundTrip(r: Request)
    ensures HeaderSeq(Header(r)) == r.seqNo && HeaderLen(Header(r)) == |r.password|
  {
    Widths();
    NumberRoundTrip(r.seqNo, 8);
    NumberRoundTrip(|r.password|, 4);
    assert Header(r)[..8] == ToBytes(r.seqNo, 8);
    assert Header(r)[8..12] == ToBytes(|r.password|, 4);
  }

  /** The k-th frame sits right behind the frames before it. */
  lemma {:induction false} WireSplit(rs: seq<Request>, k: nat)
    requires k < |rs|
    ensures Wire(rs[..k]) + Frame(rs[k]) == Wire(rs[..k + 1])
    ensures Wire(rs[..k + 1]) <= Wire(rs)
    decreases |rs|
  {
    hide Frame;
    assert rs[..k + 1][..k] == rs[..k];
    if k + 1 == |rs| {
      assert rs[..k + 1] == rs;
    } else {
      var shorter := rs[..|rs| - 1];
      WireSplit(shorter, k);
      assert shorter[..k] == rs[..k] && shorter[..k + 1] == rs[..k + 1];
    }
  }

  // ------------------------------------------------- the helper's read loops

  /** Where check_password stands: accumulating the header, accumulating the
      body, running PAM on a whole password, or gone. */
  datatype Phase =
    | Heading(got: seq<byte>)
    | Reading(seqNo: nat, len: nat, got: seq<byte>)
    | Judging(seqNo: nat, password: seq<byte>)
    | Gone

  /** How many bytes the next read() may return at most. */
  function Wanted(p: Phase): nat {
    match p
    case Heading(got) => if |got| < HEADER_SIZE then HEADER_SIZE - |got| else 0
    case Reading(_, len, got) => if |got| < len then len - |got| else 0
    case _ => 0
  }

  /** A header whose length exceeds the helper's own buffer is refused. */
  predicate Overlong(h: seq<byte>)
    requires |h| == HEADER_SIZE
  {
    HeaderLen(h) > BUFFER_SIZE - 1
  }

  /** The phase after read() returned `chunk`, unless the header it completes is
      refused. An empty body is complete at once. */
  function Feed(p: Phase, chunk: seq<byte>): Phase
    requires 1 <= |chunk| <= Wanted(p)
  {
    match p
    case Heading(got) =>
      var h := got + chunk;
      if |h| < HEADER_SIZE then Heading(h)
      else if Overlong(h) then Gone
      else if HeaderLen(h) == 0 then Judging(HeaderSeq(h), [])
      else Reading(HeaderSeq(h), HeaderLen(h), [])
    case Reading(seqNo, len, got) =>
      if |got + chunk| < len then Reading(seqNo, len, got + chunk) else Judging(seqNo, got + chunk)
  }

  /** The helper has taken exactly `consumed` off the pipe, answered `served`
      requests, and holds an honest part of the next one. */
  ghost predicate InStep(p: Phase, rs: seq<Request>, served: nat, consumed: seq<byte>)
  {
    && served <= |rs|
    && match p
       case Heading(got) => |got| < HEADER_SIZE && consumed == Wire(rs[..served]) + got
       case Reading(s, len, got) =>
         && served < |rs| && s == rs[served].seqNo && len == |rs[served].password| && |got| < len
         && consumed == Wire(rs[..served]) + Header(rs[served]) + got
       case Judging(s, pw) =>
         && served < |rs| && s == rs[served].seqNo && pw == rs[served].password
         && consumed == Wire(rs[..served + 1])
       case Gone => true
  }

  /** However the stream is cut into reads, the helper recovers the submitted
      requests one by one, and never refuses a header as overlong. */
  lemma FeedStaysInStep(p: Phase, rs: seq<Request>, served: nat, consumed: seq<byte>, chunk: seq<byte>, rest: seq<byte>)
    requires InStep(p, rs, served, consumed) && 1 <= |chunk| <= Wanted(p)
    requires consumed + chunk + rest == Wire(rs)
    ensures Feed(p, chunk) != Gone && InStep(Feed(p, chunk), rs, served, consumed + chunk)
  {
    hide Header, HeaderSeq, HeaderLen, Wire, Frame;
    MoreToCome(p, rs, served, consumed, chunk, rest);
    WireSplit(rs, served);
    var base, r := Wire(rs[..served]), rs[served];
    match p {
      case Heading(got) =>
        Regroup(base, got, chunk, rest);
        HeadAgrees(base, got + chunk, rest, r, Wire(rs));
        HeadingFed(got, chunk, rs, served, consumed);
      case Reading(s, len, got) =>
        Regroup(base + Header(r), got, chunk, rest);
        BodyAgrees(base, got + chunk, rest, r, Wire(rs));
        ReadingFed(s, len, got, chunk, rs, served, consumed);
    }
  }

  lemma Regroup(a: seq<byte>, b: seq<byte>, c: seq<byte>, d: seq<byte>)
    ensures (a + b) + c + d == a + (b + c) + d
  {
  }

  lemma MoreToCome(p: Phase, rs: seq<Request>, served: nat, consumed: seq<byte>, chunk: seq<byte>, rest: seq<byte>)
    requires InStep(p, rs, served, consumed) && 1 <= |chunk| <= Wanted(p)
    requires consumed + chunk + rest == Wire(rs)
    ensures served < |rs|
  {
    assert rs[..|rs|] == rs;
    assert |consumed + chunk + rest| > |consumed|;
  }

  lemma HeadingFed(got: seq<byte>, chunk: seq<byte>, rs: seq<Request>, served: nat, consumed: seq<byte>)
    requires served < |rs| && InStep(Heading(got), rs, served, consumed)
    requires 1 <= |chunk| <= HEADER_SIZE - |got|
    requires got + chunk == Header(rs[served])[..|got + chunk|]
    ensures var q := Feed(Heading(got), chunk); q != Gone && InStep(q, rs, served, consumed + chunk)
  {
    hide Header, HeaderSeq, HeaderLen, Wire;
    var base, r, h := Wire(rs[..served]), rs[served], got + chunk;
    assert consumed + chunk == base + h;
    if |h| == HEADER_SIZE {
      assert h == Header(r);
      HeaderRoundTrip(r);
      WireSplit(rs, served);
      if |r.password| == 0 {
        assert base + Frame(r) == base + h;
      } else {
        assert base + h == base + Header(r) + [];
      }
    }
  }

  lemma ReadingFed(s: nat, len: nat, got: seq<byte>, chunk: seq<byte>, rs: seq<Request>, served: nat,
        consumed: seq<byte>)
    requires served < |rs| && InStep(Reading(s, len, got), rs, served, consumed)
    requires 1 <= |chunk| <= len - |got|
    requires got + chunk == rs[served].password[..|got + chunk|]
    ensures var q := Feed(Reading(s, len, got), chunk); q != Gone && InStep(q, rs, served, consumed + chunk)
  {
    hide Header, Wire;
    var base, r, b := Wire(rs[..served]), rs[served], got + chunk;
    assert consumed + chunk == base + Header(r) + b;
    if |b| == len {
      assert b == r.password;
      WireSplit(rs, served);
      assert base + Header(r) + b == base + Frame(r);
    }
  }

  lemma HeadAgrees(base: seq<byte>, h: seq<byte>, rest: seq<byte>, r: Request, all: seq<byte>)
    requires |h| <= HEADER_SIZE
    requires base + Frame(r) <= all && base + h + rest == all
    ensures h == Header(r)[..|h|]
  {
    assert h == all[|base|..|base| + |h|];
    assert Frame(r) == all[|base|..|base| + |Frame(r)|];
  }

  lemma BodyAgrees(base: seq<byte>, b: seq<byte>, rest: seq<byte>, r: Request, all: seq<byte>)
    requires |b| <= |r.password|
    requires base + Frame(r) <= all && base + Header(r) + b + rest == all
    ensures b == r.password[..|b|]
  {
    var at := |base| + HEADER_SIZE;
    assert b == all[at..at + |b|];
    assert Frame(r) == all[|base|..|base| + |Frame(r)|];
    assert r.password == Frame(r)[HEADER_SIZE..];
  }

  lemma {:induction false} WireFront(rs: seq<Request>)
    requires rs != []
    ensures Wire(rs) == Frame(rs[0]) + Wire(rs[1..])
    decreases |rs|
  {
    hide Frame;
    var n := |rs| - 1;
    if n == 0 {
      assert rs[..0] == [] && rs[1..] == [];
    } else {
      WireFront(rs[..n]);
      assert rs[..n][1..] == rs[1..][..n - 1];
      assert Frame(rs[0]) + Wire(rs[1..][..n - 1]) + Frame(rs[n]) ==
             Frame(rs[0]) + (Wire(rs[1..][..n - 1]) + Frame(rs[n]));
    }
  }
}
