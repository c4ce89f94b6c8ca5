/**
  The helper of the protocol is the helper of hikari_unlocker.c: the machine that
  UnlockProtocol interleaves with everything else, left to itself on one stream
  of bytes, writes the replies that Unlocker proves the program to write.
 */
module HelperRun {
  import opened Utf8
  import opened UnlockWire
  import opened Unlocker
  import opened UnlockProtocol

  /** A helper, and the bytes of its input that have not reached the pipe yet. */
  datatype Alone = Alone(helper: Helper, coming: seq<byte>)

  datatype Act = Arrive(n: nat) | Took(n: nat) | Ended | Judged

  /** Reads return any non-empty part of what is there and wanted; the input only
      ends once all of it has been read. */
  predicate Can(s: Alone, act: Act) {
    match act
    case Arrive(n) => n <= |s.coming|
    case Took(n) => 1 <= n <= Wanted(s.helper.phase) && n <= |s.helper.inbox|
    case Ended => (s.helper.phase.Heading? || s.helper.phase.Reading?) && s.helper.inbox == [] && s.coming == []
    case Judged => s.helper.phase.Judging?
  }

  /** The protocol's own steps, with PAM answering the attempt that is under way:
      the one after all those already replied to. */
  function Do(s: Alone, act: Act, pam: Pam): Alone
    requires Can(s, act)
  {
    var h := s.helper;
    match act
    case Arrive(n) => Alone(h.(inbox := h.inbox + s.coming[..n]), s.coming[n..])
    case Took(n) => s.(helper := Take(h, n, pam.start(|h.log|)))
    case Ended => s.(helper := EndOfInput(h))
    case Judged => s.(helper := Decide(h, pam.run(|h.log|, Presented(h.phase.password))))
  }

  ghost predicate IsRun(ss: seq<Alone>, acts: seq<Act>, pam: Pam, data: seq<byte>) {
    && |ss| == |acts| + 1 && ss[0] == Alone(FRESH, data)
    && forall i :: 0 <= i < |acts| ==> Does(ss[i], acts[i], pam, ss[i + 1])
  }

  ghost predicate Does(s: Alone, act: Act, pam: Pam, t: Alone) {
    Can(s, act) && t == Do(s, act, pam)
  }

  /** Half a header is less than a header, half a body less than a body. */
  predicate Partial(p: Phase) {
    match p
    case Heading(got) => |got| < HEADER_SIZE
    case Reading(_, len, got) => |got| < len
    case _ => true
  }

  /** What a whole body is answered with, and what follows it. */
  function Verdicts(seqNo: nat, password: seq<byte>, rest: seq<byte>, pam: Pam, n: nat): seq<Reply> {
    var run := pam.run(n, Presented(password));
    [Answer(seqNo, run)] + if Judge(run) == Refuse then ServeAll(rest, pam, n + 1) else []
  }

  /** The replies still to come. */
  function Remaining(s: Alone, pam: Pam): seq<Reply> {
    var h := s.helper;
    var rest := h.inbox + s.coming;
    match h.phase
    case Heading(got) => ServeAll(got + rest, pam, |h.log|)
    case Reading(seqNo, len, got) =>
      if |got + rest| < len then [Denial(seqNo)]
      else Verdicts(seqNo, (got + rest)[..len], (got + rest)[len..], pam, |h.log|)
    case Judging(seqNo, password) => Verdicts(seqNo, password, rest, pam, |h.log|)
    case Gone => []
  }

  /** ServeAll, from behind a whole header. */
  lemma BehindHeader(header: seq<byte>, rest: seq<byte>, pam: Pam, n: nat)
    requires |header| == HEADER_SIZE
    ensures var seqNo, len := HeaderSeq(header), HeaderLen(header);
            ServeAll(header + rest, pam, n) ==
            if Overlong(header) || !pam.start(n) || |rest| < len then [Denial(seqNo)]
            else Verdicts(seqNo, rest[..len], rest[len..], pam, n)
  {
    assert (header + rest)[..HEADER_SIZE] == header && (header + rest)[HEADER_SIZE..] == rest;
    hide HeaderSeq, HeaderLen, Overlong, Answer, Presented;
  }

  lemma HeadTook(s: Alone, n: nat, pam: Pam)
    requires Can(s, Took(n)) && Partial(s.helper.phase) && s.helper.phase.Heading?
    ensures Kept(s, Do(s, Took(n), pam), pam)
  {
    hide HeaderSeq, HeaderLen, ServeAll, Verdicts;
    var h := s.helper;
    var chunk, more := h.inbox[..n], h.inbox[n..] + s.coming;
    var header := h.phase.got + chunk;
    Regroup(h.phase.got, h.inbox, n, s.coming);
    if |header| == HEADER_SIZE {
      BehindHeader(header, more, pam, |h.log|);
      assert [] + more == more;
    }
  }

  lemma BodyTook(s: Alone, n: nat, pam: Pam)
    requires Can(s, Took(n)) && Partial(s.helper.phase) && s.helper.phase.Reading?
    ensures Kept(s, Do(s, Took(n), pam), pam)
  {
    hide Verdicts;
    var h := s.helper;
    var body, more := h.phase.got + h.inbox[..n], h.inbox[n..] + s.coming;
    Regroup(h.phase.got, h.inbox, n, s.coming);
    if |body| == h.phase.len {
      assert (body + more)[..h.phase.len] == body && (body + more)[h.phase.len..] == more;
    }
  }

  lemma Regroup(got: seq<byte>, inbox: seq<byte>, n: nat, coming: seq<byte>)
    requires n <= |inbox|
    ensures got + (inbox + coming) == (got + inbox[..n]) + (inbox[n..] + coming)
  {
  }

  /** One act settles nothing but what it writes. */
  ghost predicate Kept(s: Alone, t: Alone, pam: Pam) {
    Partial(t.helper.phase) && t.helper.log + Remaining(t, pam) == s.helper.log + Remaining(s, pam)
  }

  lemma ActKeeps(s: Alone, act: Act, pam: Pam)
    requires Can(s, act) && Partial(s.helper.phase)
    ensures Kept(s, Do(s, act, pam), pam)
  {
    match act
    case Arrive(n) => ArriveKeeps(s, n, pam);
    case Took(n) =>
      hide ServeAll, Verdicts, Remaining, Take;
      if s.helper.phase.Heading? {
        HeadTook(s, n, pam);
      } else {
        BodyTook(s, n, pam);
      }
    case Ended => EndedKeeps(s, pam);
    case Judged => JudgedKeeps(s, pam);
  }

  lemma ArriveKeeps(s: Alone, n: nat, pam: Pam)
    requires Can(s, Arrive(n)) && Partial(s.helper.phase)
    ensures Kept(s, Do(s, Arrive(n), pam), pam)
  {
    hide ServeAll, Verdicts;
    var h := s.helper;
    assert h.inbox + s.coming[..n] + s.coming[n..] == h.inbox + s.coming;
  }

  lemma EndedKeeps(s: Alone, pam: Pam)
    requires Can(s, Ended) && Partial(s.helper.phase)
    ensures Kept(s, Do(s, Ended, pam), pam)
  {
    hide Verdicts;
    if s.helper.phase.Heading? {
      assert ServeAll(s.helper.phase.got + ([] + []), pam, |s.helper.log|) == [];
    }
  }

  lemma JudgedKeeps(s: Alone, pam: Pam)
    requires Can(s, Judged) && Partial(s.helper.phase)
    ensures Kept(s, Do(s, Judged, pam), pam)
  {
    hide ServeAll, Answer, Presented, Judge;
    assert [] + (s.helper.inbox + s.coming) == s.helper.inbox + s.coming;
  }

  /** However its input is cut into arrivals and reads, the helper has written a
      beginning of ServeAll's replies at every point, and all of them once it is
      gone. */
  lemma {:induction false} HelperIsUnlocker(ss: seq<Alone>, acts: seq<Act>, pam: Pam, data: seq<byte>, i: nat)
    requires IsRun(ss, acts, pam, data) && i < |ss|
    ensures Partial(ss[i].helper.phase)
    ensures ss[i].helper.log + Remaining(ss[i], pam) == ServeAll(data, pam, 0)
    ensures ss[i].helper.phase.Gone? ==> ss[i].helper.log == ServeAll(data, pam, 0)
    decreases i
  {
    hide Remaining, ServeAll, Do, Can;
    if i == 0 {
      FreshServes(data, pam);
    } else {
      HelperIsUnlocker(ss, acts, pam, data, i - 1);
      assert Does(ss[i - 1], acts[i - 1], pam, ss[i]);
      ActKeeps(ss[i - 1], acts[i - 1], pam);
    }
    GoneIsDone(ss[i], pam);
  }

  lemma FreshServes(data: seq<byte>, pam: Pam)
    ensures Remaining(Alone(FRESH, data), pam) == ServeAll(data, pam, 0)
  {
    assert [] + ([] + data) == data;
  }

  lemma GoneIsDone(s: Alone, pam: Pam)
    ensures s.helper.phase.Gone? ==> s.helper.log + Remaining(s, pam) == s.helper.log
  {
  }
}
