/** Values and helpers shared by the Windows and the Unix back ends of the
    ping exchange loop: Rust's fixed-width integers, the reasons a run
    panics, the console lines a run emits, the per-run counters and the
    final statistics line. */
module PingCommon {

  /** Rust's `u8` and `u16` as counters and sequence numbers. */
  type u8 = x: int | 0 <= x < 0x100
  type u16 = x: int | 0 <= x < 0x1_0000

  /** A `u8` as a byte of a packet, where the source masks bits. */
  type byte = bv8

  /** Both back ends receive into a zeroed `[0u8; 1024]` buffer. */
  const RecvBufferSize: nat := 1024

  /** The bytes a receive call placed in that buffer; the call never
      reports more bytes than the buffer holds, so `&buf[..n]` is in range. */
  type Datagram = s: seq<byte> | |s| <= RecvBufferSize

  /** The two command-line arguments the loop consumes (`--ip`, `--packet-num`). */
  datatype Args = Args(ip: string, packetNum: u16)

  /** The defaults of the command-line wrapper. */
  const DefaultArgs: Args := Args("8.8.8.8", 4)

  /** Why a run aborts: a failed send or receive (with the platform error
      code), an out-of-range index or slice, or a checked `u8` operation
      (debug-build overflow checks, division by zero). */
  datatype Panic =
    | SendFailed(code: int)
    | ReceiveFailed(code: int)
    | IndexOutOfBounds
    | AddOverflow
    | MulOverflow
    | DivideByZero

  datatype Result<T> = Ok(value: T) | Err(panic: Panic)

  /** Who a success line names as the sender. */
  datatype Sender = Octets(a: byte, b: byte, c: byte, d: byte) | Literal(text: string)

  /** One console line per probe (the round-trip time is left out). */
  datatype Line =
    | TimedOutLine
    | NotValidLine
    | ReceivedLine(bytes: nat, from: Sender, ttl: byte)

  datatype LineKind = TimedOutKind | NotValidKind | ReceivedKind

  function KindOf(l: Line): LineKind
  {
    match l
    case TimedOutLine => TimedOutKind
    case NotValidLine => NotValidKind
    case ReceivedLine(_, _, _) => ReceivedKind
  }

  /** Number of lines of kind `k`. */
  function Count(lines: seq<Line>, k: LineKind): nat
  {
    if |lines| == 0 then 0
    else Count(lines[..|lines| - 1], k) + (if KindOf(lines[|lines| - 1]) == k then 1 else 0)
  }

  lemma CountAppend(lines: seq<Line>, l: Line, k: LineKind)
    ensures Count(lines + [l], k) == Count(lines, k) + (if KindOf(l) == k then 1 else 0)
  {
    assert (lines + [l])[..|lines|] == lines;
  }

  /** Every line is of exactly one kind. */
  lemma {:induction false} CountKinds(lines: seq<Line>)
    ensures Count(lines, TimedOutKind) + Count(lines, NotValidKind) + Count(lines, ReceivedKind) == |lines|
  {
    if |lines| > 0 {
      CountKinds(lines[..|lines| - 1]);
    }
  }

  lemma PrefixSnoc<T>(s: seq<T>)
    requires |s| > 0
    ensures s[..|s| - 1] + [s[|s| - 1]] == s
  {
  }

  /** The state the loop threads through its iterations: the sequence
      numbers of the requests built so far, the lines printed so far, and
      the two `u8` counters `succeded` and `failed`. */
  datatype Tally = Tally(requests: seq<u16>, lines: seq<Line>, succeeded: u8, failed: u8)

  const Start: Tally := Tally([], [], 0, 0)

  /** The statistics line of a completed run, with what was printed before it. */
  datatype Report = Report(
    requests: seq<u16>,
    lines: seq<Line>,
    sent: u16,
    received: u8,
    lost: u8,
    lossPercent: u8)

  /** `succeded += 1` on the tally. */
  function BumpSucceeded(t: Tally): Result<Tally>
  {
    if t.succeeded == 255 then Err(AddOverflow) else Ok(t.(succeeded := t.succeeded + 1))
  }

  /** `failed += 1` on the tally, followed by the line it prints. */
  function BumpFailed(t: Tally, l: Line): Result<Tally>
  {
    if t.failed == 255 then Err(AddOverflow) else Ok(t.(failed := t.failed + 1, lines := t.lines + [l]))
  }

  /** `icmp[0] == 0 && icmp[1] == 0` on a Rust slice: the second byte is
      read only when the first is 0, and a missing byte panics. */
  function IsEchoReply(icmp: seq<byte>): (r: Result<bool>)
    ensures r.Err? <==> |icmp| == 0 || (|icmp| == 1 && icmp[0] == 0)
    ensures r.Err? ==> r.panic == IndexOutOfBounds
    ensures r == Ok(true) <==> |icmp| >= 2 && icmp[0] == 0 && icmp[1] == 0
    ensures r == Ok(false) <==> (|icmp| >= 1 && icmp[0] != 0) || (|icmp| >= 2 && icmp[0] == 0 && icmp[1] != 0)
  {
    if |icmp| == 0 then Err(IndexOutOfBounds)
    else if icmp[0] != 0 then Ok(false)
    else if |icmp| == 1 then Err(IndexOutOfBounds)
    else Ok(icmp[1] == 0)
  }

  /** `(failed / args.packet_num as u8) * 100` in `u8` arithmetic: the cast
      keeps the low byte of the `u16`, the division truncates and panics on
      a zero divisor, and the product panics above 255. */
  function LossPercent(failed: u8, packetNum: u16): (r: Result<u8>)
    ensures r == Err(DivideByZero) <==> packetNum % 256 == 0
    ensures r == Err(MulOverflow) <==> packetNum % 256 != 0 && failed >= 3 * (packetNum % 256)
    ensures r.Ok? ==> r.value == 0 || r.value == 100 || r.value == 200
    ensures r == Ok(0) <==> 0 < packetNum % 256 && failed < packetNum % 256
    ensures r == Ok(100) <==> 0 < packetNum % 256 <= failed < 2 * (packetNum % 256)
  {
    var divisor := packetNum % 256;
    if divisor == 0 then Err(DivideByZero)
    else
      var quotient := failed / divisor;
      if quotient * 100 > 255 then Err(MulOverflow) else Ok(quotient * 100)
  }

  /** When `failed` cannot exceed a divisor below 256, the loss figure is
      100 exactly when `failed` equals it and 0 otherwise. */
  lemma LossAllOrNothing(failed: u8, packetNum: u16)
    requires 0 < packetNum < 256 && failed <= packetNum
    ensures LossPercent(failed, packetNum) == Ok(if failed == packetNum then 100 else 0)
  {
  }

  /** The statistics line printed after the loop: Sent is the requested
      probe count, Received and Lost are the two counters as they stand. */
  function Summarize(args: Args, t: Tally): (r: Result<Report>)
    ensures r.Err? <==> LossPercent(t.failed, args.packetNum).Err?
    ensures r.Err? ==> r.panic == LossPercent(t.failed, args.packetNum).panic
    ensures r.Ok? ==> r.value.sent == args.packetNum && r.value.received == t.succeeded && r.value.lost == t.failed
    ensures r.Ok? ==> r.value.requests == t.requests && r.value.lines == t.lines
    ensures r.Ok? ==> r.value.lossPercent == LossPercent(t.failed, args.packetNum).value
  {
    match LossPercent(t.failed, args.packetNum)
    case Err(p) => Err(p)
    case Ok(loss) => Ok(Report(t.requests, t.lines, args.packetNum, t.succeeded, t.failed, loss))
  }
}
