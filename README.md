# Ping exchange loop, modelled in Dafny

This project models `send_icmp_packets`, the loop at the heart of a small
`ping` clone: for each of `packet_num` probes it sends an ICMP Echo Request
whose sequence number is the probe index, waits for one reply, prints one
line per probe (timed out, not a valid response, or received with sender and
TTL), counts successes and failures in two `u8` counters, and finally prints
the statistics line `Sent=…, Received=…, Lost=… (…% loss)`.
There are two back ends, both modelled:

- `WinPing` (`windows.dfy`, from `src/sys/win.rs`): a raw socket returns the
  whole IP datagram, so the loop splits at `(data[0] & 0x0F) * 4`, checks ICMP
  type and code after the header, and takes the TTL from header byte 8 and the
  sender from header bytes 12–15. After the if/else, the loop increments
  `succeded` a second time, unconditionally. So a valid reply adds 2 to
  `succeded`, an invalid reply adds 1 to each counter, and a timeout adds 1
  to `failed` only.
- `UnixPing` (`unix.dfy`, from `src/sys/unix.rs`): a datagram ICMP socket
  returns the ICMP message itself. The TTL is read from the control messages,
  starting at 0, and the last (`IPPROTO_IP`, `IP_TTL`) message wins. The
  success line names the destination string `args.ip`, and exactly one
  counter moves per completed probe.
- `PingCommon` (`common.dfy`) holds what both back ends share:
  - `u8`/`u16` counters and packet bytes (`bv8`);
  - the reasons a run panics;
  - the printed lines, the running tally and the statistics report;
  - the type/code check `icmp[0] == 0 && icmp[1] == 0`;
  - the loss expression `(failed / packet_num as u8) * 100`, evaluated in
    checked `u8` arithmetic.

The socket calls are not modelled. Instead, each run takes a sequence of
per-probe outcomes: the send failed with a code, the receive failed with a
code, or the receive returned bytes (plus control messages on Unix). A
timeout is the receive error the source compares against: `WSAETIMEDOUT`
(10060) or `ETIMEDOUT` (110). A run ends with a report or with the panic
that aborts it:
- a send failure;
- a receive failure other than a timeout;
- an out-of-range index or slice;
- a `u8` addition or multiplication that overflows;
- division by zero.

Each back end has three layers:
1. A specification made of functions:
   - Windows (`src/sys/win.rs`):
     - `WinValidReply`, the valid-reply branch (lines 129-137);
     - `WinReply`, which handles the received bytes (lines 122-142);
     - `WinStep`, one iteration (lines 82-142);
     - `WinProbes`, the loop (lines 81-143);
     - `WinRun`, the loop followed by the statistics line (lines 81-155).
   - Unix (`src/sys/unix.rs`):
     - `ReplyTtl`, the control-message walk (lines 114-128);
     - `UnixReply`, which handles the received bytes (lines 113-143);
     - `UnixStep`, one iteration (lines 62-143);
     - `UnixProbes`, the loop (lines 62-144);
     - `UnixRun`, the loop followed by the statistics line (lines 62-156).
2. An imperative `SendIcmpPackets` method, whose `for` loop has `continue`
   and early returns and is proved equal to the specification.
3. Lemmas about the specification: sequence numbers, one line per probe
   that agrees with its outcome, the exact counter arithmetic, fatal errors,
   overflow bounds and the loss figure.

The model follows the code as written, including where the code behaves
oddly:
- Windows counts a valid reply twice.
- Windows counts an invalid reply as both received and lost.
- The loss figure truncates to 0, 100 or 200.
- The loss figure divides by zero when `packet_num` is a multiple of 256.
- The loss figure overflows when `failed` reaches three times the divisor.

## Model

| member | source | states |
|---|---|---|
| PingCommon.IsEchoReply | src/sys/unix.rs:131 | panics exactly when the first byte is missing, or when it is 0 and the second is missing; true exactly for type 0 and code 0; false exactly when the type is non-zero, or the type is 0 and the code is non-zero |
| PingCommon.LossPercent | src/sys/win.rs:154 | divides by zero exactly when `packet_num % 256 == 0`; overflows exactly when `failed >= 3 * (packet_num % 256)`; otherwise the result is only ever 0, 100 or 200, with 0 exactly when `failed` is below the divisor and 100 exactly when it is between one and two divisors |
| WinPing.IpHeaderLength | src/sys/win.rs:126 | the header length is the low nibble of byte 0 times 4: a multiple of 4 no larger than 60 |
| WinPing.SplitIpHeader | src/sys/win.rs:124-128 | the split succeeds exactly when byte 0 exists and the header length fits the datagram; the header has that length and header plus ICMP part is the datagram; otherwise it is an index panic |
| WinPing.ClassifyReply | src/sys/win.rs:122-142 | the reply handling computes `WinReply`, the specification step for a received datagram (split, classify, the branch increment, then the unconditional `succeded += 1`) and adds exactly one line |
| WinPing.SendIcmpPackets | src/sys/win.rs:81-155 | the loop with its `continue` and panics yields exactly `WinRun` (`WinProbes` folding `WinStep`, then the statistics line); a completed run reports Received + Lost = probes + datagrams received |
| WinPing.WinStepEffect | src/sys/win.rs:82-142 | a `WinStep` probe that does not panic appends its sequence number and one line that agrees with the outcome. Counters: a valid reply adds 2 to `succeded`; an invalid reply adds 1 to each; a timeout adds 1 to `failed` |
| WinPing.WinProbesSound | src/sys/win.rs:81-143 | after a completed `WinProbes` loop, request k has sequence number k and line k agrees with outcome k. `succeded` = 2·valid + invalid, `failed` = timeouts + invalid, and their sum is probes + replies |
| WinPing.WinCompletedHadNoFatal | src/sys/win.rs:96-119 | every probe of a completed run either received bytes or timed out |
| WinPing.WinFatalAborts | src/sys/win.rs:96-119 | a send failure or a non-timeout receive error at probe k aborts the whole run with that error code, whatever later probes would do |
| WinPing.WinStepNoOverflow | src/sys/win.rs:112-142 | one probe cannot overflow a counter when `succeded` is at most 253 and `failed` at most 254 |
| WinPing.WinNoCounterOverflow | src/sys/win.rs:76-143 | with at most 127 probes no counter overflows |
| WinPing.WinRunTotals | src/sys/win.rs:149-155 | a completed run reports Sent = `packet_num` and Received + Lost = probes + datagrams received |
| WinPing.WinValidReplyCountsTwice | src/sys/win.rs:129-142 | a well-formed valid Echo Reply adds 2 to `succeded` and nothing to `failed`. Its line prints the byte count, sender and TTL: the sender is datagram bytes 12–15 and the TTL is byte 8, both from the IP header |
| WinPing.WinShortHeaderPanics | src/sys/win.rs:129-137 | a valid type and code behind an IP header shorter than 16 bytes panics on the index into the header, after `succeded += 1` |
| WinPing.WinAllValidReplies | src/sys/win.rs:81-143 | up to 127 well-formed valid replies end with `succeded` = 2 × probes and `failed` = 0 |
| WinPing.WinLossAllOrNothing | src/sys/win.rs:149-155 | for 1 to 255 probes a completed run has Lost ≤ `packet_num`; the printed loss is 100% exactly when Lost = `packet_num` (every probe timed out or was invalid) and 0% otherwise |
| PingCommon.LossAllOrNothing | src/sys/unix.rs:155 | for a divisor of 1 to 255 and `failed` not above it, the loss expression gives 100 exactly when `failed` equals the divisor and 0 otherwise |
| WinPing.WinDefaultRunAllAnswered | src/sys/win.rs:149-155 | with the default 4 probes all answered, the statistics read Sent=4, Received=8, Lost=0, 0% loss |
| UnixPing.ScanTtl | src/sys/unix.rs:114-128 | the control-message walk returns `ReplyTtl`, the TTL of the specification, starting from 0 |
| UnixPing.TtlLastMatchWins | src/sys/unix.rs:119-127 | in `ReplyTtl`, the last (`IPPROTO_IP`, `IP_TTL`) message decides the TTL |
| UnixPing.TtlWithoutMatch | src/sys/unix.rs:114-128 | without such a message the TTL stays 0 |
| UnixPing.ClassifyReply | src/sys/unix.rs:113-143 | the reply handling computes `UnixReply`, the specification step: TTL scan, type/code check, exactly one counter up by 1, exactly one line added |
| UnixPing.SendIcmpPackets | src/sys/unix.rs:62-156 | the loop with its `continue` and panics yields exactly `UnixRun` (`UnixProbes` folding `UnixStep`, then the statistics line); a completed run reports Received + Lost = `packet_num` |
| UnixPing.UnixStepEffect | src/sys/unix.rs:62-143 | a `UnixStep` probe that does not panic appends its sequence number and one agreeing line, and raises exactly one counter by 1 (`succeded` for a valid reply) |
| UnixPing.UnixProbesSound | src/sys/unix.rs:62-144 | after a completed `UnixProbes` loop, request k has sequence number k and line k agrees with outcome k (sender is `args.ip`, TTL from the walk). `succeded` counts valid replies, `failed` counts timeouts plus invalid replies, and the two sum to the probe count |
| UnixPing.UnixCompletedHadNoFatal | src/sys/unix.rs:78-112 | every probe of a completed run either received bytes or timed out |
| UnixPing.UnixFatalAborts | src/sys/unix.rs:78-112 | a send failure or a non-timeout receive error at probe k aborts the whole run with that errno |
| UnixPing.UnixStepNoOverflow | src/sys/unix.rs:104-143 | a probe cannot overflow a counter that is at most 254 |
| UnixPing.UnixNoCounterOverflow | src/sys/unix.rs:59-143 | with at most 255 probes no counter overflows |
| UnixPing.UnixRunTotals | src/sys/unix.rs:150-156 | a completed run reports Sent = Received + Lost = `packet_num` |
| UnixPing.UnixLossAllOrNothing | src/sys/unix.rs:155 | for 1 to 255 probes the printed loss is 100% exactly when every probe was lost, and 0% otherwise |
| UnixPing.UnixAllTimeouts | src/sys/unix.rs:104-110 | a run of up to 255 timeouts completes with `succeded` = 0 and `failed` = probe count |
| UnixPing.UnixTimeoutOverflow | src/sys/unix.rs:107 | 256 consecutive timeouts overflow `failed`, so the run panics |
| UnixPing.UnixTwoOfFourLost | src/sys/unix.rs:150-156 | with probes 0 and 2 timing out and 1 and 3 answered, the statistics read Sent=4, Received=2, Lost=2, and 0% loss after truncation |

## Left out

- Socket creation and the socket options are not modelled: `socket`, `WSAStartup`, `SO_RCVTIMEO` and `IP_RECVTTL`, nor the panics of `socket`, `WSAStartup` and `SO_RCVTIMEO`. The Unix `setsockopt` for `IP_RECVTTL` (`src/sys/unix.rs:49-57`) ignores its result and cannot panic. The run starts with the socket open.
- Address parsing is not modelled (`ipv4_win_socket_address`, `address_from_string`, `parse().unwrap()`). The address is the `ip` string of the arguments.
- The system calls are not modelled (`sendto`, `recvfrom`, `recvmsg`, the errno and `WSAGetLastError` lookups). Each probe's result is an input outcome.
- The Unix socket sets no receive timeout: `src/sys/unix.rs:47-57` only enables `IP_RECVTTL`, and on Linux an expired `SO_RCVTIMEO` reports `EAGAIN`, not `ETIMEDOUT`. So the model treats `ETIMEDOUT` (110) as just the value the loop compares against. UnixAllTimeouts, UnixTimeoutOverflow and UnixTwoOfFourLost describe the branch at `src/sys/unix.rs:106-110` as written, not a path that a receive timeout actually reaches. Because nothing bounds the wait, a Unix probe whose reply never arrives leaves `recvmsg` (`src/sys/unix.rs:102`) blocked forever. That run never reaches the statistics line, and no outcome stands for it.
- Building the request packet is not part of this model: `ICMPEchoRequestHeader::new` and `to_buf` (checksum, encoding) live in `src/protocol.rs`. The model records only the sequence number each request carries.
- Round-trip times (`Instant`, `elapsed`, `as_millis`) are left out of the printed lines, because they depend on the clock.
- The exact text formatting of `println!` is left out. Lines are modelled by their kind and their arguments.
- Lines printed before a panic are not kept in the panic result, and the panic message text is reduced to its kind and code.
- `closesocket`, `close` and `WSACleanup` after the loop are left out; they do not affect the report.
- The command-line parser in `src/main.rs` and the platform dispatch in `src/sys/mod.rs` are not modelled. Only their defaults (`8.8.8.8`, 4 probes) appear, as `DefaultArgs`.
- Release-build wrap-around of `u8` arithmetic is not modelled: every `+=` and `*` is checked as in a debug build.
- The Unix address helper returns a pointer into a local that has gone out of scope. Kernel-side truncation of control messages longer than the 128-byte buffer is also not modelled: the control-message list is an input.
- Datagrams longer than the 1024-byte receive buffer are not modelled as such, but the receive call never reports more than 1024 bytes. On Linux, `recvmsg` truncates to the buffer and sets `MSG_TRUNC`, which the loop ignores, so the model sees the first 1024 bytes. On Windows, `recvfrom` fails with `WSAEMSGSIZE`, which the model covers as a non-timeout receive error that panics (`src/sys/win.rs:119`).
