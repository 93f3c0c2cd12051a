/** The Windows back end of the exchange loop (`send_icmp_packets` over a
    raw ICMP socket). A raw socket hands back the whole IP datagram, so the
    reply is split at the IP header length before the ICMP type and code are
    read, and the TTL and sender come from the IP header. */
module WinPing {
  import opened PingCommon

  /** Winsock's error code for a receive that hit `SO_RCVTIMEO`. */
  const WSAETIMEDOUT: int := 10060

  /** What `sendto` and `recvfrom` did for one probe. */
  datatype Outcome =
    | SendError(code: int)     // `sendto` returned SOCKET_ERROR
    | ReceiveError(code: int)  // `recvfrom` returned SOCKET_ERROR, with WSAGetLastError
    | Received(data: Datagram) // `recvfrom` read `|data|` bytes

  /** `(data[0] & 0x0F) * 4`: the IHL field counts 32-bit words. */
  function IpHeaderLength(first: byte): (r: u8)
    ensures r % 4 == 0 && r <= 60
    ensures r == (first as int) % 16 * 4
  {
    LowNibble(first);
    ((first & 0x0F) as int) * 4
  }

  /** Masking with 0x0F keeps the remainder modulo 16. */
  lemma LowNibble(b: byte)
    ensures (b & 0x0F) as int == (b as int) % 16
  {
    assert b & 0x0F == b % 16;
    assert (b % 16) as int == (b as int) % 16;
  }

  /** `&data[ip_header_len..]` and `&data[..ip_header_len]`; reading `data[0]`
      or slicing past the end panics. */
  function SplitIpHeader(data: seq<byte>): (r: Result<(seq<byte>, seq<byte>)>)
    ensures r.Ok? <==> |data| >= 1 && IpHeaderLength(data[0]) as int <= |data|
    ensures r.Err? ==> r.panic == IndexOutOfBounds
    ensures r.Ok? ==> |r.value.0| == IpHeaderLength(data[0]) as int && r.value.0 + r.value.1 == data
  {
    if |data| == 0 then Err(IndexOutOfBounds)
    else
      var headerLen := IpHeaderLength(data[0]) as int;
      if headerLen > |data| then Err(IndexOutOfBounds)
      else Ok((data[..headerLen], data[headerLen..]))
  }

  /** The arguments of the success line: source octets 12..15 and the TTL
      at offset 8 of the IP header; a header shorter than 16 bytes panics. */
  function SourceAndTtl(ipHeader: seq<byte>): Result<(Sender, byte)>
  {
    if |ipHeader| < 16 then Err(IndexOutOfBounds)
    else Ok((Octets(ipHeader[12], ipHeader[13], ipHeader[14], ipHeader[15]), ipHeader[8]))
  }

  /** The branch taken for a valid Echo Reply: `succeded += 1`, then the
      success line, whose arguments index the IP header. */
  function WinValidReply(t: Tally, count: nat, ipHeader: seq<byte>): Result<Tally>
  {
    match BumpSucceeded(t)
    case Err(p) => Err(p)
    case Ok(t1) =>
      match SourceAndTtl(ipHeader)
      case Err(p) => Err(p)
      case Ok((source, ttl)) => Ok(t1.(lines := t1.lines + [ReceivedLine(count, source, ttl)]))
  }

  /** The part of the loop body after a receive that returned bytes: split,
      classify, then the unconditional `succeded += 1` at the end. */
  function WinReply(t: Tally, data: Datagram): Result<Tally>
  {
    match SplitIpHeader(data)
    case Err(p) => Err(p)
    case Ok((ipHeader, icmp)) =>
      match IsEchoReply(icmp)
      case Err(p) => Err(p)
      case Ok(valid) =>
        match (if valid then WinValidReply(t, |data|, ipHeader) else BumpFailed(t, NotValidLine))
        case Err(p) => Err(p)
        case Ok(t1) => BumpSucceeded(t1)
  }

  /** One iteration of the loop, for the probe built with `seqNo`. A
      timeout `continue`s before the final `succeded += 1`. */
  function WinStep(t0: Tally, seqNo: u16, o: Outcome): Result<Tally>
  {
    var t := t0.(requests := t0.requests + [seqNo]);
    match o
    case SendError(code) => Err(SendFailed(code))
    case ReceiveError(code) =>
      if code != WSAETIMEDOUT then Err(ReceiveFailed(code))
      else BumpFailed(t, TimedOutLine)
    case Received(data) => WinReply(t, data)
  }

  /** The loop over the first `|outs|` probes, probe `i` getting `outs[i]`. */
  function WinProbes(outs: seq<Outcome>): Result<Tally>
    requires |outs| <= 0x1_0000
  {
    if |outs| == 0 then Ok(Start)
    else
      match WinProbes(outs[..|outs| - 1])
      case Err(p) => Err(p)
      case Ok(t) => WinStep(t, |outs| - 1, outs[|outs| - 1])
  }

  /** The whole run: `args.packet_num` probes, then the statistics line. */
  function WinRun(args: Args, outs: seq<Outcome>): Result<Report>
    requires |outs| == args.packetNum as int
  {
    match WinProbes(outs)
    case Err(p) => Err(p)
    case Ok(t) => Summarize(args, t)
  }

  /** Lines 122-142 of the loop body: what happens to the counters once
      `recvfrom` has returned bytes. */
  method ClassifyReply(t: Tally, data: Datagram) returns (r: Result<Tally>)
    ensures r == WinReply(t, data)
    ensures r.Ok? ==> r.value.requests == t.requests && |r.value.lines| == |t.lines| + 1
  {
    var succeded, failed, lines := t.succeeded, t.failed, t.lines;
    if |data| == 0 { return Err(IndexOutOfBounds); }
    var ipHeaderLen := IpHeaderLength(data[0]) as int;
    if ipHeaderLen > |data| { return Err(IndexOutOfBounds); }
    var icmp := data[ipHeaderLen..];
    var ipHeader := data[..ipHeaderLen];
    assert SplitIpHeader(data) == Ok((ipHeader, icmp));
    if |icmp| == 0 || (icmp[0] == 0 && |icmp| == 1) { return Err(IndexOutOfBounds); }
    var valid := icmp[0] == 0 && icmp[1] == 0;
    assert IsEchoReply(icmp) == Ok(valid);
    if valid {
      if succeded == 255 { return Err(AddOverflow); }
      succeded := succeded + 1;
      if |ipHeader| < 16 { return Err(IndexOutOfBounds); }
      lines := lines + [ReceivedLine(|data|, Octets(ipHeader[12], ipHeader[13], ipHeader[14], ipHeader[15]), ipHeader[8])];
      assert WinValidReply(t, |data|, ipHeader) == Ok(Tally(t.requests, lines, succeded, failed));
    } else {
      if failed == 255 { return Err(AddOverflow); }
      failed := failed + 1;
      lines := lines + [NotValidLine];
      assert BumpFailed(t, NotValidLine) == Ok(Tally(t.requests, lines, succeded, failed));
    }
    if succeded == 255 { return Err(AddOverflow); }
    succeded := succeded + 1;
    r := Ok(Tally(t.requests, lines, succeded, failed));
  }

  /** `send_icmp_packets`, from the first request to the statistics line. */
  method SendIcmpPackets(args: Args, outcomes: seq<Outcome>) returns (r: Result<Report>)
    requires |outcomes| == args.packetNum as int
    ensures r == WinRun(args, outcomes)
    ensures r.Ok? ==> r.value.received as int + r.value.lost as int == args.packetNum as int + Replies(outcomes)
  {
    var succeded: u8 := 0;
    var failed: u8 := 0;
    var requests: seq<u16> := [];
    var lines: seq<Line> := [];
    for i := 0 to args.packetNum
      invariant WinProbes(outcomes[..i]) == Ok(Tally(requests, lines, succeded, failed))
    {
      WinProbesSnoc(outcomes, i);
      WinErrPersists(outcomes, i + 1);
      assert outcomes[..args.packetNum] == outcomes;
      assert WinProbes(outcomes[..i + 1]).Err? ==> WinRun(args, outcomes) == Err(WinProbes(outcomes[..i + 1]).panic);
      ghost var before := Tally(requests, lines, succeded, failed);
      requests := requests + [i];
      match outcomes[i] {
        case SendError(code) =>
          return Err(SendFailed(code));
        case ReceiveError(code) =>
          if code == WSAETIMEDOUT {
            if failed == 255 { return Err(AddOverflow); }
            failed := failed + 1;
            lines := lines + [TimedOutLine];
            continue;
          }
          return Err(ReceiveFailed(code));
        case Received(data) =>
          assert WinStep(before, i, outcomes[i]) == WinReply(Tally(requests, lines, succeded, failed), data);
          var next := ClassifyReply(Tally(requests, lines, succeded, failed), data);
          if next.Err? { return Err(next.panic); }
          succeded, failed, lines := next.value.succeeded, next.value.failed, next.value.lines;
      }
    }
    assert outcomes[..args.packetNum] == outcomes;
    r := Summarize(args, Tally(requests, lines, succeded, failed));
    if r.Ok? {
      WinProbesSound(outcomes);
    }
  }

  // ---------------------------------------------------------------------
  // Properties of the loop

  /** Number of probes whose receive returned bytes. */
  function Replies(outs: seq<Outcome>): nat
  {
    if |outs| == 0 then 0
    else Replies(outs[..|outs| - 1]) + (if outs[|outs| - 1].Received? then 1 else 0)
  }

  /** What line `l` says about the probe outcome `o` that produced it, in
      terms of the received bytes alone. */
  ghost predicate WinLineAgrees(o: Outcome, l: Line)
  {
    match l
    case TimedOutLine => o == ReceiveError(WSAETIMEDOUT)
    case NotValidLine =>
      o.Received? && |o.data| >= 1 &&
      var hl := IpHeaderLength(o.data[0]) as int;
      hl < |o.data| && (o.data[hl] != 0 || (hl + 1 < |o.data| && o.data[hl + 1] != 0))
    case ReceivedLine(n, source, ttl) =>
      o.Received? && |o.data| >= 1 && n == |o.data| &&
      var hl := IpHeaderLength(o.data[0]) as int;
      16 <= hl && hl + 2 <= |o.data| && o.data[hl] == 0 && o.data[hl + 1] == 0 &&
      ttl == o.data[8] && source == Octets(o.data[12], o.data[13], o.data[14], o.data[15])
  }

  lemma {:induction false} WinProbesSnoc(outs: seq<Outcome>, i: nat)
    requires i < |outs| <= 0x1_0000
    ensures WinProbes(outs[..i + 1]) ==
      match WinProbes(outs[..i])
      case Err(p) => Err(p)
      case Ok(t) => WinStep(t, i, outs[i])
  {
    assert outs[..i + 1][..i] == outs[..i];
  }

  /** Once the loop has panicked, later outcomes change nothing. */
  lemma {:induction false} WinErrPersists(outs: seq<Outcome>, k: nat)
    requires k <= |outs| <= 0x1_0000
    ensures WinProbes(outs[..k]).Err? ==> WinProbes(outs) == WinProbes(outs[..k])
    decreases |outs|
  {
    if k < |outs| && WinProbes(outs[..k]).Err? {
      var prefix := outs[..|outs| - 1];
      assert prefix[..k] == outs[..k];
      WinErrPersists(prefix, k);
    } else if k == |outs| {
      assert outs[..k] == outs;
    }
  }

  /** Effect of one iteration that did not panic: one request with the
      given sequence number, one line that agrees with the outcome, and the
      counter changes of that line's kind (a timeout adds 1 to `failed`
      only, an invalid reply 1 to each, a valid reply 2 to `succeded`). */
  ghost predicate WinStepDelta(t: Tally, seqNo: u16, o: Outcome, t1: Tally)
  {
    t1.requests == t.requests + [seqNo] &&
    |t1.lines| == |t.lines| + 1 && t1.lines == t.lines + [t1.lines[|t.lines|]] &&
    WinLineAgrees(o, t1.lines[|t.lines|]) &&
    match t1.lines[|t.lines|]
    case TimedOutLine => t1.succeeded == t.succeeded && t1.failed == t.failed + 1
    case NotValidLine => t1.succeeded == t.succeeded + 1 && t1.failed == t.failed + 1
    case ReceivedLine(_, _, _) => t1.succeeded == t.succeeded + 2 && t1.failed == t.failed
  }

  lemma WinStepEffect(t: Tally, seqNo: u16, o: Outcome)
    requires WinStep(t, seqNo, o).Ok?
    ensures WinStepDelta(t, seqNo, o, WinStep(t, seqNo, o).value)
  {
    if o.Received? {
      var t0 := t.(requests := t.requests + [seqNo]);
      var data := o.data;
      var hl := IpHeaderLength(data[0]) as int;
      assert SplitIpHeader(data) == Ok((data[..hl], data[hl..]));
      if IsEchoReply(data[hl..]) == Ok(true) {
        var t1 := BumpSucceeded(t0).value;
        var src := SourceAndTtl(data[..hl]).value;
        assert WinValidReply(t0, |data|, data[..hl]) == Ok(t1.(lines := t1.lines + [ReceivedLine(|data|, src.0, src.1)]));
      }
    }
  }

  /** What a tally that did not panic says about the outcomes of its probes:
      requests 0, 1, ... in order, one agreeing line per probe, `succeded`
      twice the valid replies plus the invalid ones, `failed` the timeouts
      plus the invalid replies, so that their sum is the number of probes
      plus the number of replies. */
  ghost predicate WinTallyMatches(outs: seq<Outcome>, t: Tally)
  {
    |t.requests| == |outs| && (forall k :: 0 <= k < |outs| ==> t.requests[k] == k) &&
    |t.lines| == |outs| && (forall k :: 0 <= k < |outs| ==> WinLineAgrees(outs[k], t.lines[k])) &&
    t.succeeded == 2 * Count(t.lines, ReceivedKind) + Count(t.lines, NotValidKind) &&
    t.failed == Count(t.lines, TimedOutKind) + Count(t.lines, NotValidKind) &&
    t.succeeded + t.failed == |outs| + Replies(outs)
  }

  lemma WinTallyExtend(outs: seq<Outcome>, o: Outcome, t: Tally, t1: Tally)
    requires |outs| < 0x1_0000
    requires WinTallyMatches(outs, t) && WinStepDelta(t, |outs|, o, t1)
    ensures WinTallyMatches(outs + [o], t1)
  {
    var l := t1.lines[|t.lines|];
    CountAppend(t.lines, l, ReceivedKind);
    CountAppend(t.lines, l, NotValidKind);
    CountAppend(t.lines, l, TimedOutKind);
    assert (outs + [o])[..|outs|] == outs;
    forall k | 0 <= k < |outs| + 1
      ensures WinLineAgrees((outs + [o])[k], t1.lines[k])
    {
      if k < |outs| {
        assert t1.lines[k] == t.lines[k];
      }
    }
  }

  /** Every run that did not panic matches its outcomes. */
  lemma {:induction false} WinProbesSound(outs: seq<Outcome>)
    requires |outs| <= 0x1_0000
    requires WinProbes(outs).Ok?
    ensures WinTallyMatches(outs, WinProbes(outs).value)
  {
    if |outs| > 0 {
      var n := |outs| - 1;
      var prefix := outs[..n];
      PrefixSnoc(outs);
      assert WinProbes(prefix).Ok?;
      WinProbesSound(prefix);
      var t := WinProbes(prefix).value;
      WinStepEffect(t, n, outs[n]);
      WinTallyExtend(prefix, outs[n], t, WinProbes(outs).value);
    }
  }

  /** A completed run saw no send failure and no receive error other than a
      timeout. */
  lemma WinCompletedHadNoFatal(outs: seq<Outcome>, k: nat)
    requires k < |outs| <= 0x1_0000
    requires WinProbes(outs).Ok?
    ensures outs[k].Received? || outs[k] == ReceiveError(WSAETIMEDOUT)
  {
    WinProbesSound(outs);
  }

  /** A send failure or a non-timeout receive error aborts the run with that
      error code, whatever later probes would have done. */
  lemma WinFatalAborts(outs: seq<Outcome>, k: nat)
    requires k < |outs| <= 0x1_0000
    requires WinProbes(outs[..k]).Ok?
    requires outs[k].SendError? || (outs[k].ReceiveError? && outs[k].code != WSAETIMEDOUT)
    ensures WinProbes(outs) == if outs[k].SendError? then Err(SendFailed(outs[k].code)) else Err(ReceiveFailed(outs[k].code))
  {
    WinProbesSnoc(outs, k);
    WinErrPersists(outs, k + 1);
  }

  /** With at most 127 probes neither counter can overflow (`succeded`
      grows by at most 2 per probe). */
  lemma {:induction false} WinNoCounterOverflow(outs: seq<Outcome>)
    requires |outs| <= 127
    ensures WinProbes(outs) != Err(AddOverflow)
  {
    if |outs| > 0 {
      var n := |outs| - 1;
      var prefix := outs[..n];
      WinNoCounterOverflow(prefix);
      if WinProbes(prefix).Ok? {
        var t := WinProbes(prefix).value;
        WinProbesSound(prefix);
        CountKinds(t.lines);
        WinStepNoOverflow(t, n, outs[n]);
      }
    }
  }

  /** One iteration adds at most 2 to `succeded` and 1 to `failed`. */
  lemma WinStepNoOverflow(t: Tally, seqNo: u16, o: Outcome)
    requires t.succeeded <= 253 && t.failed <= 254
    ensures WinStep(t, seqNo, o) != Err(AddOverflow)
  {
    if o.Received? && SplitIpHeader(o.data).Ok? {
      var t0 := t.(requests := t.requests + [seqNo]);
      var (ipHeader, icmp) := SplitIpHeader(o.data).value;
      if IsEchoReply(icmp) == Ok(true) {
        assert BumpSucceeded(t0).Ok?;
        assert WinValidReply(t0, |o.data|, ipHeader) != Err(AddOverflow);
      }
    }
  }

  /** A completed run reports the requested count as Sent and, as Received
      plus Lost, the probes plus the replies. */
  lemma WinRunTotals(args: Args, outs: seq<Outcome>)
    requires |outs| == args.packetNum as int
    requires WinRun(args, outs).Ok?
    ensures WinRun(args, outs).value.sent == args.packetNum
    ensures WinRun(args, outs).value.received as int + WinRun(args, outs).value.lost as int
      == args.packetNum as int + Replies(outs)
  {
    WinProbesSound(outs);
  }

  /** A reply the Windows classification accepts without panicking: the
      IP header is at least 16 bytes and is followed by ICMP type 0, code 0. */
  predicate WellFormedEchoReply(data: Datagram)
  {
    |data| >= 1 && 16 <= IpHeaderLength(data[0]) as int <= |data| - 2 &&
    data[IpHeaderLength(data[0]) as int] == 0 && data[IpHeaderLength(data[0]) as int + 1] == 0
  }

  /** A well-formed valid Echo Reply adds 2 to `succeded` and prints the
      header's sender and TTL. */
  lemma WinValidReplyCountsTwice(t: Tally, seqNo: u16, data: Datagram)
    requires WellFormedEchoReply(data)
    requires t.succeeded <= 253
    ensures WinStep(t, seqNo, Received(data)) == Ok(Tally(
      t.requests + [seqNo],
      t.lines + [ReceivedLine(|data|, Octets(data[12], data[13], data[14], data[15]), data[8])],
      t.succeeded + 2,
      t.failed))
  {
    var hl := IpHeaderLength(data[0]) as int;
    assert SplitIpHeader(data) == Ok((data[..hl], data[hl..]));
    assert IsEchoReply(data[hl..]) == Ok(true);
  }

  /** A valid type and code behind an IP header shorter than 16 bytes:
      `succeded += 1` goes through, then reading the sender octets of the
      success line panics. */
  lemma WinShortHeaderPanics(t: Tally, seqNo: u16, data: Datagram)
    requires |data| >= 1 && IpHeaderLength(data[0]) as int < 16
    requires IpHeaderLength(data[0]) as int + 2 <= |data|
    requires data[IpHeaderLength(data[0]) as int] == 0 && data[IpHeaderLength(data[0]) as int + 1] == 0
    requires t.succeeded < 255
    ensures WinStep(t, seqNo, Received(data)) == Err(IndexOutOfBounds)
  {
    var hl := IpHeaderLength(data[0]) as int;
    var t1 := t.(requests := t.requests + [seqNo]);
    assert SplitIpHeader(data) == Ok((data[..hl], data[hl..]));
    assert IsEchoReply(data[hl..]) == Ok(true);
    assert SourceAndTtl(data[..hl]).Err?;
    assert WinValidReply(t1, |data|, data[..hl]) == Err(IndexOutOfBounds);
  }

  /** A run of well-formed valid replies counts each one twice. */
  lemma {:induction false} WinAllValidReplies(outs: seq<Outcome>)
    requires |outs| <= 127
    requires forall k :: 0 <= k < |outs| ==> outs[k].Received? && WellFormedEchoReply(outs[k].data)
    ensures WinProbes(outs).Ok?
    ensures WinProbes(outs).value.succeeded == 2 * |outs| && WinProbes(outs).value.failed == 0
  {
    if |outs| > 0 {
      var n := |outs| - 1;
      WinAllValidReplies(outs[..n]);
      WinValidReplyCountsTwice(WinProbes(outs[..n]).value, n, outs[n].data);
    }
  }

  /** With the default four probes all answered, the statistics read
      Sent=4, Received=8, Lost=0 (0% loss). */
  lemma WinDefaultRunAllAnswered(outs: seq<Outcome>)
    requires |outs| == 4
    requires forall k :: 0 <= k < 4 ==> outs[k].Received? && WellFormedEchoReply(outs[k].data)
    ensures WinRun(DefaultArgs, outs).Ok?
    ensures WinRun(DefaultArgs, outs).value.sent == 4
    ensures WinRun(DefaultArgs, outs).value.received == 8
    ensures WinRun(DefaultArgs, outs).value.lost == 0
    ensures WinRun(DefaultArgs, outs).value.lossPercent == 0
  {
    WinAllValidReplies(outs);
  }

  /** With 1 to 255 probes a completed run has `failed <= packet_num`, so the
      truncating division leaves 100% exactly when every probe timed out or
      was invalid, and 0% otherwise. */
  lemma WinLossAllOrNothing(args: Args, outs: seq<Outcome>)
    requires |outs| == args.packetNum as int && 0 < args.packetNum < 256
    requires WinRun(args, outs).Ok?
    ensures WinRun(args, outs).value.lost as int <= args.packetNum as int
    ensures WinRun(args, outs).value.lossPercent == if WinRun(args, outs).value.lost as int == args.packetNum as int then 100 else 0
  {
    var t := WinProbes(outs).value;
    WinProbesSound(outs);
    CountKinds(t.lines);
    assert t.failed <= args.packetNum;
    LossAllOrNothing(t.failed, args.packetNum);
  }
}
