/** The Unix back end of the exchange loop (`send_icmp_packets` over a
    datagram ICMP socket). The kernel strips the IP header, so the received
    bytes are the ICMP message itself, and the TTL comes from the
    `IP_TTL` control messages that `IP_RECVTTL` asks for. */
module UnixPing {
  import opened PingCommon

  /** The `errno` value (Linux's `ETIMEDOUT`) the loop compares against
      after a failed receive. */
  const ETIMEDOUT: int := 110

  /** Linux's `IPPROTO_IP` level and `IP_TTL` type of a control message. */
  const IPPROTO_IP: int := 0
  const IP_TTL: int := 2

  /** Control-message payload: the kernel always delivers at least the byte
      that `*CMSG_DATA(cmsg)` reads. */
  type CmsgData = s: seq<byte> | |s| >= 1 witness [0]

  /** One control message of the list that `CMSG_FIRSTHDR`/`CMSG_NXTHDR` walk. */
  datatype ControlMsg = ControlMsg(level: int, kind: int, data: CmsgData)

  /** What `sendto` and `recvmsg` did for one probe. */
  datatype Outcome =
    | SendError(code: int)                                 // `sendto` returned < 0, with errno
    | ReceiveError(code: int)                              // `recvmsg` returned < 0, with errno
    | Received(data: Datagram, control: seq<ControlMsg>)   // `recvmsg` read `|data|` bytes

  predicate IsTtlMsg(c: ControlMsg)
  {
    c.level == IPPROTO_IP && c.kind == IP_TTL
  }

  /** The TTL the walk leaves behind: the first data byte of the last
      (IPPROTO_IP, IP_TTL) message, or 0 when there is none. */
  function ReplyTtl(control: seq<ControlMsg>): byte
  {
    if |control| == 0 then 0
    else if IsTtlMsg(control[|control| - 1]) then control[|control| - 1].data[0]
    else ReplyTtl(control[..|control| - 1])
  }

  /** The last (IPPROTO_IP, IP_TTL) message decides the TTL. */
  lemma {:induction false} TtlLastMatchWins(control: seq<ControlMsg>, k: nat)
    requires k < |control| && IsTtlMsg(control[k])
    requires forall j :: k < j < |control| ==> !IsTtlMsg(control[j])
    ensures ReplyTtl(control) == control[k].data[0]
  {
    if k < |control| - 1 {
      TtlLastMatchWins(control[..|control| - 1], k);
    }
  }

  /** Without an (IPPROTO_IP, IP_TTL) message the TTL stays 0. */
  lemma {:induction false} TtlWithoutMatch(control: seq<ControlMsg>)
    requires forall j :: 0 <= j < |control| ==> !IsTtlMsg(control[j])
    ensures ReplyTtl(control) == 0
  {
    if |control| > 0 {
      TtlWithoutMatch(control[..|control| - 1]);
    }
  }

  /** The `while !cmsg.is_null()` walk over the control messages. */
  method ScanTtl(control: seq<ControlMsg>) returns (ttl: byte)
    ensures ttl == ReplyTtl(control)
  {
    ttl := 0;
    var i := 0;
    while i < |control|
      invariant 0 <= i <= |control|
      invariant ttl == ReplyTtl(control[..i])
    {
      assert control[..i + 1][..i] == control[..i];
      if IsTtlMsg(control[i]) {
        ttl := control[i].data[0];
      }
      i := i + 1;
    }
    assert control[..|control|] == control;
  }

  /** The part of the loop body after a receive that returned bytes. The
      success line names the destination string `ip`, not the sender. */
  function UnixReply(ip: string, t: Tally, data: Datagram, control: seq<ControlMsg>): Result<Tally>
  {
    var ttl := ReplyTtl(control);
    match IsEchoReply(data)
    case Err(p) => Err(p)
    case Ok(valid) =>
      if valid then
        match BumpSucceeded(t)
        case Err(p) => Err(p)
        case Ok(t1) => Ok(t1.(lines := t1.lines + [ReceivedLine(|data|, Literal(ip), ttl)]))
      else BumpFailed(t, NotValidLine)
  }

  /** One iteration of the loop, for the probe built with `seqNo`. */
  function UnixStep(ip: string, t0: Tally, seqNo: u16, o: Outcome): Result<Tally>
  {
    var t := t0.(requests := t0.requests + [seqNo]);
    match o
    case SendError(code) => Err(SendFailed(code))
    case ReceiveError(code) =>
      if code != ETIMEDOUT then Err(ReceiveFailed(code))
      else BumpFailed(t, TimedOutLine)
    case Received(data, control) => UnixReply(ip, t, data, control)
  }

  /** The loop over the first `|outs|` probes, probe `i` getting `outs[i]`. */
  function UnixProbes(ip: string, outs: seq<Outcome>): Result<Tally>
    requires |outs| <= 0x1_0000
  {
    if |outs| == 0 then Ok(Start)
    else
      match UnixProbes(ip, outs[..|outs| - 1])
      case Err(p) => Err(p)
      case Ok(t) => UnixStep(ip, t, |outs| - 1, outs[|outs| - 1])
  }

  /** The whole run: `args.packet_num` probes, then the statistics line. */
  function UnixRun(args: Args, outs: seq<Outcome>): Result<Report>
    requires |outs| == args.packetNum as int
  {
    match UnixProbes(args.ip, outs)
    case Err(p) => Err(p)
    case Ok(t) => Summarize(args, t)
  }

  /** Lines 113-143 of the loop body: what happens once `recvmsg` has
      returned bytes and control messages. */
  method ClassifyReply(ip: string, t: Tally, icmpData: Datagram, control: seq<ControlMsg>) returns (r: Result<Tally>)
    ensures r == UnixReply(ip, t, icmpData, control)
    ensures r.Ok? ==> r.value.requests == t.requests && |r.value.lines| == |t.lines| + 1
  {
    var succeded, failed, lines := t.succeeded, t.failed, t.lines;
    var ttl := ScanTtl(control);
    if |icmpData| == 0 || (icmpData[0] == 0 && |icmpData| == 1) { return Err(IndexOutOfBounds); }
    var valid := icmpData[0] == 0 && icmpData[1] == 0;
    assert IsEchoReply(icmpData) == Ok(valid);
    if valid {
      if succeded == 255 { return Err(AddOverflow); }
      succeded := succeded + 1;
      lines := lines + [ReceivedLine(|icmpData|, Literal(ip), ttl)];
    } else {
      if failed == 255 { return Err(AddOverflow); }
      failed := failed + 1;
      lines := lines + [NotValidLine];
    }
    r := Ok(Tally(t.requests, lines, succeded, failed));
  }

  /** `send_icmp_packets`, from the first request to the statistics line. */
  method SendIcmpPackets(args: Args, outcomes: seq<Outcome>) returns (r: Result<Report>)
    requires |outcomes| == args.packetNum as int
    ensures r == UnixRun(args, outcomes)
    ensures r.Ok? ==> r.value.received as int + r.value.lost as int == args.packetNum as int
  {
    var succeded: u8 := 0;
    var failed: u8 := 0;
    var requests: seq<u16> := [];
    var lines: seq<Line> := [];
    for i := 0 to args.packetNum
      invariant UnixProbes(args.ip, outcomes[..i]) == Ok(Tally(requests, lines, succeded, failed))
    {
      UnixProbesSnoc(args.ip, outcomes, i);
      UnixErrPersists(args.ip, outcomes, i + 1);
      assert outcomes[..args.packetNum] == outcomes;
      assert UnixProbes(args.ip, outcomes[..i + 1]).Err? ==>
        UnixRun(args, outcomes) == Err(UnixProbes(args.ip, outcomes[..i + 1]).panic);
      ghost var before := Tally(requests, lines, succeded, failed);
      requests := requests + [i];
      match outcomes[i] {
        case SendError(code) =>
          return Err(SendFailed(code));
        case ReceiveError(code) =>
          if code == ETIMEDOUT {
            if failed == 255 { return Err(AddOverflow); }
            failed := failed + 1;
            lines := lines + [TimedOutLine];
            continue;
          }
          return Err(ReceiveFailed(code));
        case Received(icmpData, control) =>
          assert UnixStep(args.ip, before, i, outcomes[i]) == UnixReply(args.ip, Tally(requests, lines, succeded, failed), icmpData, control);
          var next := ClassifyReply(args.ip, Tally(requests, lines, succeded, failed), icmpData, control);
          if next.Err? { return Err(next.panic); }
          succeded, failed, lines := next.value.succeeded, next.value.failed, next.value.lines;
      }
    }
    assert outcomes[..args.packetNum] == outcomes;
    r := Summarize(args, Tally(requests, lines, succeded, failed));
    if r.Ok? {
      UnixProbesSound(args.ip, outcomes);
    }
  }

  // ---------------------------------------------------------------------
  // Properties of the loop

  /** What line `l` says about the probe outcome `o` that produced it. */
  ghost predicate UnixLineAgrees(ip: string, o: Outcome, l: Line)
  {
    match l
    case TimedOutLine => o == ReceiveError(ETIMEDOUT)
    case NotValidLine =>
      o.Received? && |o.data| >= 1 && (o.data[0] != 0 || (|o.data| >= 2 && o.data[1] != 0))
    case ReceivedLine(n, source, ttl) =>
      o.Received? && n == |o.data| && |o.data| >= 2 && o.data[0] == 0 && o.data[1] == 0 &&
      source == Literal(ip) && ttl == ReplyTtl(o.control)
  }

  lemma {:induction false} UnixProbesSnoc(ip: string, outs: seq<Outcome>, i: nat)
    requires i < |outs| <= 0x1_0000
    ensures UnixProbes(ip, outs[..i + 1]) ==
      match UnixProbes(ip, outs[..i])
      case Err(p) => Err(p)
      case Ok(t) => UnixStep(ip, t, i, outs[i])
  {
    assert outs[..i + 1][..i] == outs[..i];
  }

  /** Once the loop has panicked, later outcomes change nothing. */
  lemma {:induction false} UnixErrPersists(ip: string, outs: seq<Outcome>, k: nat)
    requires k <= |outs| <= 0x1_0000
    ensures UnixProbes(ip, outs[..k]).Err? ==> UnixProbes(ip, outs) == UnixProbes(ip, outs[..k])
    decreases |outs|
  {
    if k < |outs| && UnixProbes(ip, outs[..k]).Err? {
      var prefix := outs[..|outs| - 1];
      assert prefix[..k] == outs[..k];
      UnixErrPersists(ip, prefix, k);
    } else if k == |outs| {
      assert outs[..k] == outs;
    }
  }

  /** Effect of one iteration that did not panic: one request with the
      given sequence number, one line that agrees with the outcome, and
      exactly one counter up by 1 (`succeded` for a valid reply, `failed`
      for a timeout or an invalid reply). */
  ghost predicate UnixStepDelta(ip: string, t: Tally, seqNo: u16, o: Outcome, t1: Tally)
  {
    t1.requests == t.requests + [seqNo] &&
    |t1.lines| == |t.lines| + 1 && t1.lines == t.lines + [t1.lines[|t.lines|]] &&
    UnixLineAgrees(ip, o, t1.lines[|t.lines|]) &&
    (t1.lines[|t.lines|].ReceivedLine? ==> t1.succeeded == t.succeeded + 1 && t1.failed == t.failed) &&
    (!t1.lines[|t.lines|].ReceivedLine? ==> t1.succeeded == t.succeeded && t1.failed == t.failed + 1)
  }

  lemma UnixStepEffect(ip: string, t: Tally, seqNo: u16, o: Outcome)
    requires UnixStep(ip, t, seqNo, o).Ok?
    ensures UnixStepDelta(ip, t, seqNo, o, UnixStep(ip, t, seqNo, o).value)
  {
  }

  /** What a tally that did not panic says about the outcomes of its probes:
      requests 0, 1, ... in order, one agreeing line per probe, `succeded`
      the valid replies, `failed` the timeouts and the invalid replies, so
      that every probe is counted exactly once. */
  ghost predicate UnixTallyMatches(ip: string, outs: seq<Outcome>, t: Tally)
  {
    |t.requests| == |outs| && (forall k :: 0 <= k < |outs| ==> t.requests[k] == k) &&
    |t.lines| == |outs| && (forall k :: 0 <= k < |outs| ==> UnixLineAgrees(ip, outs[k], t.lines[k])) &&
    t.succeeded == Count(t.lines, ReceivedKind) &&
    t.failed == Count(t.lines, TimedOutKind) + Count(t.lines, NotValidKind) &&
    t.succeeded + t.failed == |outs|
  }

  lemma UnixTallyExtend(ip: string, outs: seq<Outcome>, o: Outcome, t: Tally, t1: Tally)
    requires |outs| < 0x1_0000
    requires UnixTallyMatches(ip, outs, t) && UnixStepDelta(ip, t, |outs|, o, t1)
    ensures UnixTallyMatches(ip, outs + [o], t1)
  {
    var l := t1.lines[|t.lines|];
    CountAppend(t.lines, l, ReceivedKind);
    CountAppend(t.lines, l, NotValidKind);
    CountAppend(t.lines, l, TimedOutKind);
    assert (outs + [o])[..|outs|] == outs;
    forall k | 0 <= k < |outs| + 1
      ensures UnixLineAgrees(ip, (outs + [o])[k], t1.lines[k])
    {
      if k < |outs| {
        assert t1.lines[k] == t.lines[k];
      }
    }
  }

  /** Every run that did not panic matches its outcomes. */
  lemma {:induction false} UnixProbesSound(ip: string, outs: seq<Outcome>)
    requires |outs| <= 0x1_0000
    requires UnixProbes(ip, outs).Ok?
    ensures UnixTallyMatches(ip, outs, UnixProbes(ip, outs).value)
  {
    if |outs| > 0 {
      var n := |outs| - 1;
      var prefix := outs[..n];
      PrefixSnoc(outs);
      assert UnixProbes(ip, prefix).Ok?;
      UnixProbesSound(ip, prefix);
      var t := UnixProbes(ip, prefix).value;
      UnixStepEffect(ip, t, n, outs[n]);
      UnixTallyExtend(ip, prefix, outs[n], t, UnixProbes(ip, outs).value);
    }
  }

  /** A completed run saw no send failure and no receive error other than a
      timeout. */
  lemma UnixCompletedHadNoFatal(ip: string, outs: seq<Outcome>, k: nat)
    requires k < |outs| <= 0x1_0000
    requires UnixProbes(ip, outs).Ok?
    ensures outs[k].Received? || outs[k] == ReceiveError(ETIMEDOUT)
  {
    UnixProbesSound(ip, outs);
  }

  /** A send failure or a non-timeout receive error aborts the run with that
      error code, whatever later probes would have done. */
  lemma UnixFatalAborts(ip: string, outs: seq<Outcome>, k: nat)
    requires k < |outs| <= 0x1_0000
    requires UnixProbes(ip, outs[..k]).Ok?
    requires outs[k].SendError? || (outs[k].ReceiveError? && outs[k].code != ETIMEDOUT)
    ensures UnixProbes(ip, outs) == if outs[k].SendError? then Err(SendFailed(outs[k].code)) else Err(ReceiveFailed(outs[k].code))
  {
    UnixProbesSnoc(ip, outs, k);
    UnixErrPersists(ip, outs, k + 1);
  }

  /** With at most 255 probes neither `u8` counter can overflow. */
  lemma {:induction false} UnixNoCounterOverflow(ip: string, outs: seq<Outcome>)
    requires |outs| <= 255
    ensures UnixProbes(ip, outs) != Err(AddOverflow)
  {
    if |outs| > 0 {
      var n := |outs| - 1;
      var prefix := outs[..n];
      UnixNoCounterOverflow(ip, prefix);
      if UnixProbes(ip, prefix).Ok? {
        UnixProbesSound(ip, prefix);
        UnixStepNoOverflow(ip, UnixProbes(ip, prefix).value, n, outs[n]);
      }
    }
  }

  /** One iteration adds at most 1 to either counter. */
  lemma UnixStepNoOverflow(ip: string, t: Tally, seqNo: u16, o: Outcome)
    requires t.succeeded <= 254 && t.failed <= 254
    ensures UnixStep(ip, t, seqNo, o) != Err(AddOverflow)
  {
  }

  /** A completed run reports the requested count as Sent and as Received
      plus Lost. */
  lemma UnixRunTotals(args: Args, outs: seq<Outcome>)
    requires |outs| == args.packetNum as int
    requires UnixRun(args, outs).Ok?
    ensures UnixRun(args, outs).value.sent == args.packetNum
    ensures UnixRun(args, outs).value.received as int + UnixRun(args, outs).value.lost as int == args.packetNum as int
  {
    UnixProbesSound(args.ip, outs);
  }

  /** With fewer than 256 probes the truncating division makes the loss
      figure all or nothing: 100% when every probe was lost, 0% otherwise. */
  lemma UnixLossAllOrNothing(args: Args, outs: seq<Outcome>)
    requires |outs| == args.packetNum as int && 0 < args.packetNum < 256
    requires UnixRun(args, outs).Ok?
    ensures UnixRun(args, outs).value.lossPercent == if UnixRun(args, outs).value.lost as int == args.packetNum as int then 100 else 0
  {
    UnixRunTotals(args, outs);
  }

  /** A run in which every receive fails with `ETIMEDOUT` counts each probe as lost. */
  lemma {:induction false} UnixAllTimeouts(ip: string, outs: seq<Outcome>)
    requires |outs| <= 255
    requires forall k :: 0 <= k < |outs| ==> outs[k] == ReceiveError(ETIMEDOUT)
    ensures UnixProbes(ip, outs).Ok?
    ensures UnixProbes(ip, outs).value.succeeded == 0 && UnixProbes(ip, outs).value.failed == |outs|
  {
    if |outs| > 0 {
      UnixAllTimeouts(ip, outs[..|outs| - 1]);
    }
  }

  /** The 256th lost probe overflows `failed`, so such a run panics. */
  lemma UnixTimeoutOverflow(ip: string, outs: seq<Outcome>)
    requires 256 <= |outs| <= 0x1_0000
    requires forall k :: 0 <= k < 256 ==> outs[k] == ReceiveError(ETIMEDOUT)
    ensures UnixProbes(ip, outs) == Err(AddOverflow)
  {
    assert outs[..256][..255] == outs[..255];
    UnixAllTimeouts(ip, outs[..255]);
    UnixProbesSnoc(ip, outs, 255);
    UnixErrPersists(ip, outs, 256);
  }

  /** Probes 0 and 2 time out, probes 1 and 3 are answered: the statistics
      read Sent=4, Received=2, Lost=2 and, after the truncating division,
      0% loss. */
  lemma UnixTwoOfFourLost(reply: Datagram, control: seq<ControlMsg>)
    requires |reply| >= 2 && reply[0] == 0 && reply[1] == 0
    ensures var r := UnixRun(DefaultArgs, [ReceiveError(ETIMEDOUT), Received(reply, control), ReceiveError(ETIMEDOUT), Received(reply, control)]);
      r.Ok? && r.value.sent == 4 && r.value.received == 2 && r.value.lost == 2 && r.value.lossPercent == 0
  {
    var ip := DefaultArgs.ip;
    var outs := [ReceiveError(ETIMEDOUT), Received(reply, control), ReceiveError(ETIMEDOUT), Received(reply, control)];
    UnixNoCounterOverflow(ip, outs);
    assert IsEchoReply(reply) == Ok(true);
    assert outs[..0] == [];
    UnixProbesSnoc(ip, outs, 0);
    UnixProbesSnoc(ip, outs, 1);
    UnixProbesSnoc(ip, outs, 2);
    UnixProbesSnoc(ip, outs, 3);
    assert outs[..4] == outs;
    assert UnixProbes(ip, outs[..1]).value.succeeded == 0 && UnixProbes(ip, outs[..1]).value.failed == 1;
    assert UnixProbes(ip, outs[..2]).value.succeeded == 1 && UnixProbes(ip, outs[..2]).value.failed == 1;
    assert UnixProbes(ip, outs[..3]).value.succeeded == 1 && UnixProbes(ip, outs[..3]).value.failed == 2;
    assert UnixProbes(ip, outs).value.succeeded == 2 && UnixProbes(ip, outs).value.failed == 2;
  }
}
