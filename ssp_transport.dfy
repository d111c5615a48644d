/** The SPI transport of the SSP sensor hub: finding the start of the
    MCU's reply in a receive window, the retrying read, the wake-up
    handshake over the two interrupt lines, the instruction and command
    exchanges with their ACK retries and failure counters, the big-endian
    decoders of the firmware revision, scanning info and fuse ROM reply,
    and the dispatch of the MCU's interrupt message.

    SPI transfers and GPIO reads are inputs: a read is given the windows
    the bus would clock in, a wake-up the level of each line at each poll.
    The message codes of the protocol header are parameters. */
module SspTransport {
  import opened Wrappers
  import opened Bytes

  // A byte on the bus is a `byte`: the AP's `char` is unsigned, so a
  // received byte combines as 0 .. 255.

  const EFAULT := 14

  /** Polls of an interrupt line before a wake-up times out
      (LIMIT_DELAY_CNT). */
  const LimitDelayCnt := 200
  /** Extra bytes clocked in beyond the command and the reply
      (RECEIVEBUFFERSIZE). */
  const ReceiveBufferSize := 12
  /** Re-syncs of a window in which the reply has not started. */
  const ResyncLimit := 100
  /** Revision reported when the revision read fails. */
  const UnknownRevision := 99999

  /** Result codes of the transport: SUCCESS, FAIL and ERROR. */
  datatype Status = Success | Fail | Error

  /** What ssp_receive_msg returns: the length of the frame it handed on,
      or a status. */
  datatype Received = ReceivedLength(n: nat) | NotReceived(st: Status)

  /** Message and instruction codes of the protocol header, which this
      model takes as given. */
  datatype SspConsts = SspConsts(
    defaultRetries: nat,
    msgAck: byte,
    msg2sspSsm: byte,
    msg2sspSsd: byte,
    msg2sspSrm: byte,
    msg2sspRts: byte,
    msg2sspStt: byte,
    msg2sspNoData: byte,
    msg2sspApStt: byte,
    msg2sspApFuserom: byte,
    msg2sspApFirmwareRev: byte,
    msg2sspApSensorScanning: byte,
    removeSensor: byte,
    addSensor: byte,
    changeDelay: byte,
    goSleep: byte,
    factoryMode: byte,
    removeLibrary: byte,
    addLibrary: byte,
    opSensorRemove: byte,
    opSensorAdd: byte,
    opChangeDelay: byte,
    opStatusSleep: byte,
    opSelftest: byte,
    opLibraryRemove: byte,
    opLibraryAdd: byte,
    sensorhubConfigured: bool)

  /** The seven instruction codes of the switch in send_instruction are
      distinct case labels. */
  predicate DistinctInstructions(k: SspConsts)
  {
    var s := [k.removeSensor, k.addSensor, k.changeDelay, k.goSleep, k.factoryMode, k.removeLibrary, k.addLibrary];
    forall i, j :: 0 <= i < j < |s| ==> s[i] != s[j]
  }

  // ---------------------------------------------------------------
  // Start of the reply in a receive window
  // ---------------------------------------------------------------

  /** Index of the first non-zero byte of `buf` from `i` on, or -EFAULT. */
  function ScanFrom(buf: seq<byte>, i: nat): (r: int)
    requires i <= |buf|
    ensures r == -EFAULT <==> forall j :: i <= j < |buf| ==> buf[j] == 0
    ensures r >= 0 ==> i <= r < |buf| && buf[r] != 0 && forall j :: i <= j < r ==> buf[j] == 0
    ensures r == -EFAULT || r >= 0
    decreases |buf| - i
  {
    if i == |buf| then -EFAULT
    else if buf[i] != 0 then i
    else ScanFrom(buf, i + 1)
  }

  /** Where the reply starts: the first non-zero byte, or -EFAULT when the
      MCU clocked in nothing but zeros. */
  function RecvStart(buf: seq<byte>): (r: int)
    ensures r == -EFAULT <==> forall j :: 0 <= j < |buf| ==> buf[j] == 0
    ensures r >= 0 ==> r < |buf| && buf[r] != 0 && forall j :: 0 <= j < r ==> buf[j] == 0
  {
    ScanFrom(buf, 0)
  }

  /** ssp_spi_checkrecvstart: scan the window for its first non-zero byte. */
  method CheckRecvStart(buf: seq<byte>) returns (r: int)
    ensures r == -EFAULT <==> forall j :: 0 <= j < |buf| ==> buf[j] == 0
    ensures r >= 0 ==> r < |buf| && buf[r] != 0 && forall j :: 0 <= j < r ==> buf[j] == 0
    ensures r == RecvStart(buf)
  {
    var i := 0;
    while i < |buf|
      invariant 0 <= i <= |buf|
      invariant forall j :: 0 <= j < i ==> buf[j] == 0
    {
      if buf[i] != 0 {
        break;
      }
      i := i + 1;
    }
    if i == |buf| {
      return -EFAULT;
    }
    return i;
  }

  // ---------------------------------------------------------------
  // The retrying read
  // ---------------------------------------------------------------

  /** What the bus does in one pass of ssp_i2c_read: the status of the
      transfer that sends the command, the windows it and each re-sync
      clock in, the bytes a follow-up transfer clocks in, and whether the
      wall clock shows four seconds gone when the pass fails. */
  datatype Attempt = Attempt(syncRet: int, windows: seq<seq<byte>>, rest: seq<byte>, clockExpired: bool)

  /** Every window of the pass is `size` bytes and there is one for the
      first transfer and each possible re-sync; the follow-up transfer can
      supply a whole reply. */
  predicate Shaped(a: Attempt, size: nat, rxLen: nat)
  {
    |a.windows| == ResyncLimit + 1 &&
    (forall w :: w in a.windows ==> |w| == size) &&
    |a.rest| == rxLen
  }

  /** Inputs for a read of `rxLen` bytes after a `txLen`-byte command with
      `retries` retries: one pass more than the retries. */
  predicate ReadShaped(attempts: seq<Attempt>, txLen: nat, rxLen: nat, retries: nat)
  {
    |attempts| > retries &&
    forall a :: a in attempts ==> Shaped(a, txLen + ReceiveBufferSize + rxLen, rxLen)
  }

  /** The first window from `k` on in which the reply has started. */
  function FirstReplyWindow(ws: seq<seq<byte>>, k: nat): (r: Option<nat>)
    requires k <= |ws|
    ensures r.Some? ==> (k <= r.value < |ws| && RecvStart(ws[r.value]) >= 0 &&
                         forall j :: k <= j < r.value ==> RecvStart(ws[j]) < 0)
    ensures r.None? ==> forall j :: k <= j < |ws| ==> RecvStart(ws[j]) < 0
    decreases |ws| - k
  {
    if k == |ws| then None
    else if RecvStart(ws[k]) >= 0 then Some(k)
    else FirstReplyWindow(ws, k + 1)
  }

  /** The reply cut out of window `w` whose reply starts at `pos`: when
      the window holds `rxLen` bytes from the start they are the reply;
      otherwise the bytes it holds are followed by the bytes a follow-up
      transfer of the missing length clocks in. */
  function Extract(w: seq<byte>, pos: nat, rxLen: nat, rest: seq<byte>): (r: seq<byte>)
    requires pos <= |w| && |rest| >= rxLen
    ensures |r| == rxLen
    ensures var got := if |w| - pos < rxLen then |w| - pos else rxLen;
      r[..got] == w[pos..pos + got] && r[got..] == rest[..rxLen - got]
  {
    var received := |w| - pos;
    if received < rxLen then w[pos..] + rest[..rxLen - received]
    else w[pos..pos + rxLen]
  }

  /** The reply of one pass, or None when the reply never started within
      the re-syncs or the command transfer failed. */
  function AttemptReply(a: Attempt, rxLen: nat): Option<seq<byte>>
  {
    match FirstReplyWindow(a.windows, 0)
    case None => None
    case Some(j) =>
      if a.syncRet < 0 || |a.rest| < rxLen then None
      else Some(Extract(a.windows[j], RecvStart(a.windows[j]), rxLen, a.rest))
  }

  /** ssp_i2c_read: the reply of the first pass that succeeds; a failed
      pass ends the read when the clock has run out or no retry is left. */
  function ReadReply(attempts: seq<Attempt>, rxLen: nat, retries: nat): (r: Option<seq<byte>>)
    ensures r.Some? ==> |r.value| == rxLen
    decreases retries
  {
    if attempts == [] then None
    else
      var r := AttemptReply(attempts[0], rxLen);
      if r.Some? then r
      else if attempts[0].clockExpired || retries == 0 then None
      else ReadReply(attempts[1..], rxLen, retries - 1)
  }

  /** Pass `k` replies `x` and every pass before it failed with time
      still left on the clock. */
  predicate RepliesAt(attempts: seq<Attempt>, rxLen: nat, k: nat, x: seq<byte>)
  {
    k < |attempts| && AttemptReply(attempts[k], rxLen) == Some(x) &&
    forall j :: 0 <= j < k ==> AttemptReply(attempts[j], rxLen).None? && !attempts[j].clockExpired
  }

  lemma RepliesAtShift(attempts: seq<Attempt>, rxLen: nat, k: nat, x: seq<byte>)
    requires |attempts| > 0
    requires AttemptReply(attempts[0], rxLen).None? && !attempts[0].clockExpired
    ensures RepliesAt(attempts, rxLen, k + 1, x) <==> RepliesAt(attempts[1..], rxLen, k, x)
  {
    var tl := attempts[1..];
    if RepliesAt(attempts, rxLen, k + 1, x) {
      assert attempts[k + 1] == tl[k];
      forall j | 0 <= j < k ensures AttemptReply(tl[j], rxLen).None? && !tl[j].clockExpired {
        assert tl[j] == attempts[j + 1];
      }
    }
    if RepliesAt(tl, rxLen, k, x) {
      assert attempts[k + 1] == tl[k];
      forall j | 0 <= j < k + 1 ensures AttemptReply(attempts[j], rxLen).None? && !attempts[j].clockExpired {
        if j > 0 {
          assert attempts[j] == tl[j - 1];
        }
      }
    }
  }

  /** Reference reading of the read: it returns `x` exactly when some pass
      within the retries replies `x` and every pass before it failed with
      time still left. */
  lemma {:induction false} ReadReplySpec(attempts: seq<Attempt>, rxLen: nat, retries: nat, x: seq<byte>)
    requires |attempts| > retries
    ensures ReadReply(attempts, rxLen, retries) == Some(x) <==> exists k: nat :: k <= retries && RepliesAt(attempts, rxLen, k, x)
    decreases retries
  {
    if AttemptReply(attempts[0], rxLen).Some? || attempts[0].clockExpired || retries == 0 {
      OnlyFirstPass(attempts, rxLen, retries, x);
    } else {
      var tl := attempts[1..];
      RepliesAtShift(attempts, rxLen, 0, x);
      ReadReplySpec(tl, rxLen, retries - 1, x);
      LaterPass(attempts, rxLen, retries, x);
    }
  }

  /** When the first pass replies, or its failure ends the read, no later
      pass is the one that replies. */
  lemma OnlyFirstPass(attempts: seq<Attempt>, rxLen: nat, retries: nat, x: seq<byte>)
    requires |attempts| > retries
    requires AttemptReply(attempts[0], rxLen).Some? || attempts[0].clockExpired || retries == 0
    ensures ReadReply(attempts, rxLen, retries) == Some(x) <==> RepliesAt(attempts, rxLen, 0, x)
    ensures forall k: nat :: 0 < k <= retries ==> !RepliesAt(attempts, rxLen, k, x)
  {
  }

  /** When the first pass fails with time and retries left, the pass that
      replies is one of the rest, one place further on. */
  lemma LaterPass(attempts: seq<Attempt>, rxLen: nat, retries: nat, x: seq<byte>)
    requires |attempts| > retries > 0
    requires AttemptReply(attempts[0], rxLen).None? && !attempts[0].clockExpired
    requires ReadReply(attempts[1..], rxLen, retries - 1) == Some(x) <==>
      exists k: nat :: k <= retries - 1 && RepliesAt(attempts[1..], rxLen, k, x)
    ensures ReadReply(attempts, rxLen, retries) == Some(x) <==> exists k: nat :: k <= retries && RepliesAt(attempts, rxLen, k, x)
  {
    var tl := attempts[1..];
    assert ReadReply(attempts, rxLen, retries) == ReadReply(tl, rxLen, retries - 1);
    assert !RepliesAt(attempts, rxLen, 0, x);
    if exists k: nat :: k <= retries && RepliesAt(attempts, rxLen, k, x) {
      var k: nat :| k <= retries && RepliesAt(attempts, rxLen, k, x);
      RepliesAtShift(attempts, rxLen, k - 1, x);
    }
    if exists k: nat :: k <= retries - 1 && RepliesAt(tl, rxLen, k, x) {
      var k: nat :| k <= retries - 1 && RepliesAt(tl, rxLen, k, x);
      RepliesAtShift(attempts, rxLen, k, x);
    }
  }

  /** A reply that starts within the command and the twelve spare bytes
      is in the first window whole: no follow-up transfer is made. */
  lemma OneWindowSuffices(w: seq<byte>, pos: nat, txLen: nat, rxLen: nat, rest: seq<byte>)
    requires |w| == txLen + ReceiveBufferSize + rxLen && pos <= txLen + ReceiveBufferSize && |rest| >= rxLen
    ensures Extract(w, pos, rxLen, rest) == w[pos..pos + rxLen]
  {
  }

  /** Every reply begins with the byte that marked its start. */
  lemma {:induction false} ReplyStartsNonZero(attempts: seq<Attempt>, rxLen: nat, retries: nat)
    requires rxLen > 0
    ensures ReadReply(attempts, rxLen, retries).Some? ==> ReadReply(attempts, rxLen, retries).value[0] != 0
    decreases retries
  {
    if attempts == [] {
      return;
    }
    var a := attempts[0];
    if AttemptReply(a, rxLen).None? && !a.clockExpired && retries > 0 {
      ReplyStartsNonZero(attempts[1..], rxLen, retries - 1);
    } else if AttemptReply(a, rxLen).Some? {
      var j := FirstReplyWindow(a.windows, 0).value;
      var w := a.windows[j];
      var r := Extract(w, RecvStart(w), rxLen, a.rest);
      assert r[..1] == w[RecvStart(w)..RecvStart(w) + 1];
    }
  }

  /** One pass of ssp_i2c_read: send the command, re-sync while the reply
      has not started, then copy the reply into `rx`, fetching what the
      window lacks. */
  method ReadPass(a: Attempt, rx: array<byte>, size: nat) returns (ok: bool)
    requires Shaped(a, size, rx.Length)
    modifies rx
    ensures ok <==> AttemptReply(a, rx.Length).Some?
    ensures ok ==> rx[..] == AttemptReply(a, rx.Length).value
  {
    var n := rx.Length;
    var w := a.windows[0];
    var start := CheckRecvStart(w);
    var nRetry := 0;
    while start < 0 && nRetry < ResyncLimit
      invariant 0 <= nRetry <= ResyncLimit && w == a.windows[nRetry] && start == RecvStart(w)
      invariant FirstReplyWindow(a.windows, 0) == FirstReplyWindow(a.windows, nRetry)
    {
      nRetry := nRetry + 1;
      w := a.windows[nRetry];
      start := CheckRecvStart(w);
    }
    if start < 0 {
      assert FirstReplyWindow(a.windows, 0).None?;
      return false;
    }
    assert FirstReplyWindow(a.windows, 0) == Some(nRetry);
    assert w in a.windows;
    var received := |w| - start;
    if received < n {
      forall k | 0 <= k < n {
        rx[k] := if k < received then w[start + k] else a.rest[k - received];
      }
    } else {
      forall k | 0 <= k < n {
        rx[k] := w[start + k];
      }
    }
    assert rx[..] == Extract(w, start, n, a.rest);
    ok := a.syncRet >= 0;
  }

  /** ssp_i2c_read: passes until one succeeds, the clock runs out or the
      retries are spent. */
  method I2cRead(txLen: nat, rx: array<byte>, retries: nat, attempts: seq<Attempt>) returns (ok: bool)
    requires ReadShaped(attempts, txLen, rx.Length, retries)
    modifies rx
    ensures ok <==> ReadReply(attempts, rx.Length, retries).Some?
    ensures ok ==> rx[..] == ReadReply(attempts, rx.Length, retries).value
  {
    var i := 0;
    var left := retries;
    while true
      invariant 0 <= i <= retries && left == retries - i
      invariant forall a :: a in attempts[i..] ==> a in attempts
      invariant ReadReply(attempts, rx.Length, retries) == ReadReply(attempts[i..], rx.Length, left)
      decreases left
    {
      var a := attempts[i];
      assert a in attempts;
      ok := ReadPass(a, rx, txLen + ReceiveBufferSize + rx.Length);
      if ok || a.clockExpired || left == 0 {
        return;
      }
      assert attempts[i..][1..] == attempts[i + 1..];
      i := i + 1;
      left := left - 1;
    }
  }

  /** The replies of consecutive reads of `rxLen` bytes, each with the
      default retries. */
  function Replies(xfers: seq<seq<Attempt>>, rxLen: nat, retries: nat): (r: seq<Option<seq<byte>>>)
    ensures |r| == |xfers|
    ensures forall i :: 0 <= i < |xfers| ==> r[i] == ReadReply(xfers[i], rxLen, retries)
  {
    if xfers == [] then []
    else
      [ReadReply(xfers[0], rxLen, retries)] + Replies(xfers[1..], rxLen, retries)
  }

  // ---------------------------------------------------------------
  // Wake-up handshake
  // ---------------------------------------------------------------

  /** Level of an interrupt line at poll `k`; polls past the given levels
      read low. */
  predicate High(levels: seq<bool>, k: nat)
  {
    k < |levels| && levels[k]
  }

  /** A wait on a line times out when the line reads low on all of the
      first LimitDelayCnt polls and no shutdown cuts the wait short. */
  predicate TimedOut(levels: seq<bool>, stopOnShutdown: bool)
  {
    !stopOnShutdown && forall k :: 0 <= k < LimitDelayCnt ==> !High(levels, k)
  }

  /** The poll loop of waiting_wakeup_mcu and waiting_init_mcu: read the
      line, stop when it is high, when the count is spent or (when asked)
      on shutdown; `cnt` is iDelaycnt at the end, which counts one past
      the limit on a full timeout. */
  method PollLine(levels: seq<bool>, stopOnShutdown: bool) returns (cnt: nat)
    ensures cnt >= LimitDelayCnt <==> TimedOut(levels, stopOnShutdown)
    ensures cnt <= LimitDelayCnt + 1
    ensures cnt < LimitDelayCnt && !stopOnShutdown ==> High(levels, cnt) && forall k :: 0 <= k < cnt ==> !High(levels, k)
  {
    cnt := 0;
    while true
      invariant cnt <= LimitDelayCnt
      invariant forall k :: 0 <= k < cnt ==> !High(levels, k)
      invariant cnt > 0 ==> !stopOnShutdown
      decreases LimitDelayCnt - cnt
    {
      if High(levels, cnt) {
        return;
      }
      if cnt >= LimitDelayCnt {
        cnt := cnt + 1;
        return;
      }
      cnt := cnt + 1;
      if stopOnShutdown {
        return;
      }
    }
  }

  /** A failure counter after one wait: one more on a timeout, else reset. */
  function NextCount(c: nat, timedOut: bool): nat
  {
    if timedOut then c + 1 else 0
  }

  /** The levels of the two interrupt lines during one wake-up. */
  datatype WakeLines = WakeLines(int1: seq<bool>, int2: seq<bool>)

  /** The busy counter after a series of wake-ups without shutdown. */
  function BusyAfter(c: nat, wakes: seq<WakeLines>): nat
    decreases |wakes|
  {
    if wakes == [] then c else BusyAfter(NextCount(c, TimedOut(wakes[0].int1, false)), wakes[1..])
  }

  /** The wake-up timeout counter after a series of wake-ups without
      shutdown. */
  function TimeOutAfter(c: nat, wakes: seq<WakeLines>): nat
    decreases |wakes|
  {
    if wakes == [] then c else TimeOutAfter(NextCount(c, TimedOut(wakes[0].int2, false)), wakes[1..])
  }

  lemma {:induction false} AfterSnoc(c: nat, d: nat, wakes: seq<WakeLines>, w: WakeLines)
    ensures BusyAfter(c, wakes + [w]) == NextCount(BusyAfter(c, wakes), TimedOut(w.int1, false))
    ensures TimeOutAfter(d, wakes + [w]) == NextCount(TimeOutAfter(d, wakes), TimedOut(w.int2, false))
    decreases |wakes|
  {
    if wakes != [] {
      assert (wakes + [w])[1..] == wakes[1..] + [w];
      AfterSnoc(NextCount(c, TimedOut(wakes[0].int1, false)), NextCount(d, TimedOut(wakes[0].int2, false)), wakes[1..], w);
    } else {
      assert ([] + [w])[1..] == [];
    }
  }

  /** A counter after a series of wake-ups counts the timeouts since the
      last wake-up that did not time out. */
  lemma {:induction false} BusyCountsTrailingTimeouts(c: nat, wakes: seq<WakeLines>)
    ensures BusyAfter(c, wakes) == (if forall i :: 0 <= i < |wakes| ==> TimedOut(wakes[i].int1, false) then c + |wakes| else TrailingTimeouts(wakes))
    decreases |wakes|
  {
    if wakes != [] {
      BusyCountsTrailingTimeouts(NextCount(c, TimedOut(wakes[0].int1, false)), wakes[1..]);
      if forall i :: 0 <= i < |wakes| ==> TimedOut(wakes[i].int1, false) {
        assert forall i :: 0 <= i < |wakes[1..]| ==> TimedOut(wakes[1..][i].int1, false) by {
          forall i | 0 <= i < |wakes[1..]| ensures TimedOut(wakes[1..][i].int1, false) {
            assert wakes[1..][i] == wakes[i + 1];
          }
        }
      } else if forall i :: 0 <= i < |wakes[1..]| ==> TimedOut(wakes[1..][i].int1, false) {
        assert !TimedOut(wakes[0].int1, false) by {
          if TimedOut(wakes[0].int1, false) {
            forall i | 0 <= i < |wakes| ensures TimedOut(wakes[i].int1, false) {
              if i > 0 {
                assert wakes[i] == wakes[1..][i - 1];
              }
            }
          }
        }
        TrailingAllTimedOut(wakes);
      } else {
        TrailingSkipsHead(wakes);
      }
    }
  }

  /** Number of wake-ups at the end of the series whose first line timed
      out. */
  function TrailingTimeouts(wakes: seq<WakeLines>): nat
  {
    if wakes == [] || !TimedOut(wakes[|wakes| - 1].int1, false) then 0
    else 1 + TrailingTimeouts(wakes[..|wakes| - 1])
  }

  lemma TrailingAllTimedOut(wakes: seq<WakeLines>)
    requires wakes != [] && !TimedOut(wakes[0].int1, false)
    requires forall i :: 0 <= i < |wakes[1..]| ==> TimedOut(wakes[1..][i].int1, false)
    ensures TrailingTimeouts(wakes) == |wakes| - 1
  {
    if |wakes| > 1 {
      var init := wakes[..|wakes| - 1];
      assert wakes[|wakes| - 1] == wakes[1..][|wakes| - 2];
      assert init[1..] == wakes[1..][..|wakes| - 2];
      TrailingAllTimedOut(init);
    }
  }

  lemma TrailingSkipsHead(wakes: seq<WakeLines>)
    requires wakes != []
    requires !forall i :: 0 <= i < |wakes[1..]| ==> TimedOut(wakes[1..][i].int1, false)
    ensures TrailingTimeouts(wakes) == TrailingTimeouts(wakes[1..])
  {
    var tl := wakes[1..];
    assert wakes[|wakes| - 1] == tl[|tl| - 1];
    if TimedOut(wakes[|wakes| - 1].int1, false) {
      var init := wakes[..|wakes| - 1];
      assert init[1..] == tl[..|tl| - 1];
      assert !forall i :: 0 <= i < |init[1..]| ==> TimedOut(init[1..][i].int1, false) by {
        var i :| 0 <= i < |tl| && !TimedOut(tl[i].int1, false);
        assert i < |tl| - 1;
        assert init[1..][i] == tl[i];
      }
      TrailingSkipsHead(init);
    }
  }

  // ---------------------------------------------------------------
  // ACK retries
  // ---------------------------------------------------------------

  /** A one-byte reply that is the ACK. */
  predicate Acked(r: Option<seq<byte>>, ack: byte)
  {
    r.Some? && |r.value| == 1 && r.value[0] == ack
  }

  /** The first resend from `from` to `n` whose reply is the ACK, or
      `n + 1` when none is. */
  function FirstAck(rs: seq<Option<seq<byte>>>, ack: byte, from: nat, n: nat): (r: nat)
    requires n < |rs| && from <= n + 1
    ensures from <= r <= n + 1
    ensures r <= n ==> Acked(rs[r], ack)
    ensures forall j :: from <= j < r ==> !Acked(rs[j], ack)
    decreases n + 1 - from
  {
    if from > n then n + 1
    else if Acked(rs[from], ack) then from
    else FirstAck(rs, ack, from + 1, n)
  }

  /** Outcome of a command with up to `n` resends, `rs[0]` being the reply
      to the first send: a failed first read is ERROR, an ACK on it or on
      a resend is SUCCESS, and resends spent without one are FAIL. */
  function AckOutcome(rs: seq<Option<seq<byte>>>, ack: byte, n: nat): Status
    requires n < |rs|
  {
    if rs[0].None? then Error
    else if Acked(rs[0], ack) || FirstAck(rs, ack, 1, n) <= n then Success
    else Fail
  }

  /** Number of reads the command makes: one, plus the resends up to the
      first ACK when the first reply was not one. */
  function ReadsMade(rs: seq<Option<seq<byte>>>, ack: byte, n: nat): (m: nat)
    requires n < |rs|
    ensures 1 <= m <= n + 1
  {
    if rs[0].None? || Acked(rs[0], ack) then 1
    else var j := FirstAck(rs, ack, 1, n); if j <= n then 1 + j else 1 + n
  }

  /** A command succeeds exactly when its first read worked and one of the
      first `n + 1` replies is the ACK; it fails, rather than erring, when
      the first read worked and none is. */
  lemma AckOutcomeSpec(rs: seq<Option<seq<byte>>>, ack: byte, n: nat)
    requires n < |rs|
    ensures AckOutcome(rs, ack, n) == Success <==> rs[0].Some? && exists j :: 0 <= j <= n && Acked(rs[j], ack)
    ensures AckOutcome(rs, ack, n) == Error <==> rs[0].None?
  {
    if rs[0].Some? && exists j :: 0 <= j <= n && Acked(rs[j], ack) {
      var j :| 0 <= j <= n && Acked(rs[j], ack);
      if j > 0 && !Acked(rs[0], ack) {
        assert FirstAck(rs, ack, 1, n) <= j;
      }
    }
  }

  /** The failure counter after a command: reset on SUCCESS, one more on
      FAIL, kept on ERROR. */
  function InstFailAfter(c: nat, st: Status): nat
  {
    match st
    case Success => 0
    case Fail => c + 1
    case Error => c
  }

  /** `n` copies of the command buffer `tx`. */
  function Repeat(tx: seq<byte>, n: nat): (r: seq<seq<byte>>)
    ensures |r| == n && forall i :: 0 <= i < n ==> r[i] == tx
  {
    seq(n, _ => tx)
  }

  // ---------------------------------------------------------------
  // Instruction frames
  // ---------------------------------------------------------------

  /** The opcode send_instruction puts in a frame: the seven named
      instructions map to their message codes, any other passes through. */
  function Opcode(k: SspConsts, inst: byte): byte
  {
    if inst == k.removeSensor then k.opSensorRemove
    else if inst == k.addSensor then k.opSensorAdd
    else if inst == k.changeDelay then k.opChangeDelay
    else if inst == k.goSleep then k.opStatusSleep
    else if inst == k.factoryMode then k.opSelftest
    else if inst == k.removeLibrary then k.opLibraryRemove
    else if inst == k.addLibrary then k.opLibraryAdd
    else inst
  }

  /** The instruction frame: the SSM marker, the frame length truncated to
      a byte, the opcode, the sensor type and the payload. */
  function InstructionFrame(k: SspConsts, inst: byte, sensorType: byte, payload: seq<byte>): seq<byte>
  {
    [k.msg2sspSsm, (|payload| + 4) % 256, Opcode(k, inst), sensorType] + payload
  }

  /** What the MCU reads back out of a frame: opcode, sensor type and
      payload, when the marker and the length byte are right. */
  function DecodeFrame(k: SspConsts, f: seq<byte>): Option<(byte, byte, seq<byte>)>
  {
    if |f| >= 4 && f[0] == k.msg2sspSsm && f[1] == |f| % 256 then Some((f[2], f[3], f[4..]))
    else None
  }

  /** A frame decodes to the opcode of its instruction, its sensor type
      and its payload. */
  lemma FrameRoundTrip(k: SspConsts, inst: byte, sensorType: byte, payload: seq<byte>)
    ensures DecodeFrame(k, InstructionFrame(k, inst, sensorType, payload)) == Some((Opcode(k, inst), sensorType, payload))
  {
    assert InstructionFrame(k, inst, sensorType, payload)[4..] == payload;
  }

  /** With distinct instruction codes each named instruction gets its own
      message code, and any other code is sent as it is. */
  lemma OpcodeMap(k: SspConsts, inst: byte)
    requires DistinctInstructions(k)
    ensures inst == k.removeSensor ==> Opcode(k, inst) == k.opSensorRemove
    ensures inst == k.addSensor ==> Opcode(k, inst) == k.opSensorAdd
    ensures inst == k.changeDelay ==> Opcode(k, inst) == k.opChangeDelay
    ensures inst == k.goSleep ==> Opcode(k, inst) == k.opStatusSleep
    ensures inst == k.factoryMode ==> Opcode(k, inst) == k.opSelftest
    ensures inst == k.removeLibrary ==> Opcode(k, inst) == k.opLibraryRemove
    ensures inst == k.addLibrary ==> Opcode(k, inst) == k.opLibraryAdd
    ensures inst !in {k.removeSensor, k.addSensor, k.changeDelay, k.goSleep, k.factoryMode, k.removeLibrary, k.addLibrary} ==>
      Opcode(k, inst) == inst
  {
    var s := [k.removeSensor, k.addSensor, k.changeDelay, k.goSleep, k.factoryMode, k.removeLibrary, k.addLibrary];
    assert forall i, j :: 0 <= i < j < |s| ==> s[i] != s[j];
    assert s[0] != s[1] && s[0] != s[2] && s[0] != s[3] && s[0] != s[4] && s[0] != s[5] && s[0] != s[6];
    assert s[1] != s[2] && s[1] != s[3] && s[1] != s[4] && s[1] != s[5] && s[1] != s[6];
    assert s[2] != s[3] && s[2] != s[4] && s[2] != s[5] && s[2] != s[6];
    assert s[3] != s[4] && s[3] != s[5] && s[3] != s[6];
    assert s[4] != s[5] && s[4] != s[6] && s[5] != s[6];
  }

  /** 2 to the power `n`. */
  function Pow2(n: nat): (r: nat)
    ensures r >= 1
  {
    if n == 0 then 1 else 2 * Pow2(n - 1)
  }

  /** Whether bit `t` of the sensor state mask is set. */
  predicate SensorBit(state: nat, t: nat)
  {
    (state / Pow2(t)) % 2 == 1
  }

  // ---------------------------------------------------------------
  // Big-endian decoders
  // ---------------------------------------------------------------

  /** Two reply bytes, most significant first. */
  function Be16(b: seq<byte>): (v: nat)
    requires |b| == 2
    ensures v < 0x1_0000
  {
    (b[0] as int) * 0x100 + b[1]
  }

  /** Three reply bytes, most significant first. */
  function Be24(b: seq<byte>): (v: nat)
    requires |b| == 3
    ensures v < 0x100_0000
  {
    (b[0] as int) * 0x1_0000 + (b[1] as int) * 0x100 + b[2]
  }

  /** The three bytes, most significant first, of a value below 2^24. */
  function Be24Bytes(v: nat): (b: seq<byte>)
    requires v < 0x100_0000
    ensures |b| == 3
  {
    [v / 0x1_0000, (v / 0x100) % 0x100, v % 0x100]
  }

  /** Decoding and encoding three bytes are inverse. */
  lemma Be24RoundTrip(b: seq<byte>, v: nat)
    requires |b| == 3 && v < 0x100_0000
    ensures Be24Bytes(Be24(b)) == b
    ensures Be24(Be24Bytes(v)) == v
  {
    var x := Be24(b);
    assert x / 0x1_0000 == b[0];
    assert x / 0x100 == (b[0] as int) * 0x100 + b[1];
    assert (x / 0x100) % 0x100 == b[1];
    assert x % 0x100 == b[2];
  }

  /** Decoding two bytes is one-to-one. */
  lemma Be16Injective(b: seq<byte>, c: seq<byte>)
    requires |b| == 2 && |c| == 2 && Be16(b) == Be16(c)
    ensures b == c
  {
    assert Be16(b) / 0x100 == b[0] && Be16(c) / 0x100 == c[0];
  }

  /** The revision get_firmware_rev reports. */
  datatype Revision = WakeFailed | Rev(value: nat)

  /** The revision of a revision reply, or the placeholder when the read
      failed. */
  function RevisionOf(r: Option<seq<byte>>): nat
    requires r.Some? ==> |r.value| == 3
  {
    if r.None? then UnknownRevision else Be24(r.value)
  }

  /** What get_fuserom_data does with its two replies: its status and the
      library-buffer indices it copies into the fuse ROM data. `first` is
      the two-byte length reply, `lib` the library reply (None when the
      read failed or was not made). */
  datatype FuseRomOutcome = FuseRomOutcome(status: Status, copied: seq<nat>)

  /** A library reply of the length the first reply announced. */
  predicate FuseRomReplies(first: Option<seq<byte>>, lib: Option<seq<byte>>)
  {
    (first.Some? ==> |first.value| == 2) &&
    (first.Some? && lib.Some? ==> |lib.value| == Be16(first.value))
  }

  /** get_fuserom_data as written: any non-zero length is accepted, and a
      successful library read is followed by copying indices 0, 1 and 2. */
  function FuseRomAsWritten(first: Option<seq<byte>>, lib: Option<seq<byte>>): (o: FuseRomOutcome)
    requires FuseRomReplies(first, lib)
    ensures o.status == Success <==> first.Some? && Be16(first.value) > 0 && lib.Some?
  {
    if first.None? || Be16(first.value) == 0 || lib.None? then FuseRomOutcome(Fail, [])
    else FuseRomOutcome(Success, [0, 1, 2])
  }

  /** The guard as intended: the library reply must hold the three fuse
      ROM bytes. */
  predicate FuseRomLengthOk(len: nat)
  {
    len >= 3
  }

  /** get_fuserom_data as evidently intended: a length below 3 is rejected
      like a zero length, so every index copied lies inside the reply. */
  function FuseRomRead(first: Option<seq<byte>>, lib: Option<seq<byte>>): (o: FuseRomOutcome)
    requires FuseRomReplies(first, lib)
    ensures o.status == Success <==> first.Some? && FuseRomLengthOk(Be16(first.value)) && lib.Some?
    ensures o.status == Success ==> o.copied == [0, 1, 2] && forall i :: 0 <= i < |o.copied| ==> o.copied[i] < |lib.value|
    ensures o.status != Success ==> o.copied == []
  {
    if first.None? || !FuseRomLengthOk(Be16(first.value)) || lib.None? then FuseRomOutcome(Fail, [])
    else FuseRomOutcome(Success, [0, 1, 2])
  }

  /** As written, a reported length of 1 or 2 with a successful library
      read returns SUCCESS after reading past the end of the library
      buffer. */
  lemma FuseRomAsWrittenReadsPastBuffer(first: Option<seq<byte>>, lib: Option<seq<byte>>)
    requires FuseRomReplies(first, lib)
    requires first.Some? && 0 < Be16(first.value) < 3 && lib.Some?
    ensures FuseRomAsWritten(first, lib).status == Success
    ensures exists i :: 0 <= i < |FuseRomAsWritten(first, lib).copied| && FuseRomAsWritten(first, lib).copied[i] >= |lib.value|
    ensures FuseRomRead(first, lib).status == Fail
  {
    assert FuseRomAsWritten(first, lib).copied[2] >= |lib.value|;
  }

  /** The two guards differ exactly on a successful read of a length of 1
      or 2. */
  lemma FuseRomGuardsDifferOnlyOnShortLength(first: Option<seq<byte>>, lib: Option<seq<byte>>)
    requires FuseRomReplies(first, lib)
    ensures FuseRomAsWritten(first, lib) != FuseRomRead(first, lib) <==>
      first.Some? && 0 < Be16(first.value) < 3 && lib.Some?
  {
  }

  // ---------------------------------------------------------------
  // The hub
  // ---------------------------------------------------------------

  /** ssp_data, as far as the transport uses it: the shutdown and
      firmware-download flags and the sensor mask the operations read,
      and the failure counters, logs and fuse ROM bytes they update. */
  class SspHub {
    const k: SspConsts
    /** bSspShutdown. */
    const shutdown: bool
    /** fw_dl_state == FW_DL_STATE_DOWNLOADING. */
    const downloading: bool
    /** uSensorState: one bit per attached sensor. */
    const sensorState: nat
    var busyCnt: nat
    var timeOutCnt: nat
    var instFailCnt: nat
    var ssdFailCnt: nat
    /** The command buffers handed to ssp_i2c_read, in order. */
    var requests: seq<seq<byte>>
    /** The data frames handed to parse_dataframe, in order. */
    var frames: seq<seq<byte>>
    /** uFuseRomData. */
    var fuseRom: seq<byte>
    /** iLibraryLength. */
    var libraryLength: nat

    constructor (k: SspConsts, shutdown: bool, downloading: bool, sensorState: nat)
      ensures this.k == k && this.shutdown == shutdown && this.downloading == downloading && this.sensorState == sensorState
      ensures busyCnt == 0 && timeOutCnt == 0 && instFailCnt == 0 && ssdFailCnt == 0
      ensures requests == [] && frames == [] && fuseRom == [0, 0, 0] && libraryLength == 0
    {
      this.k := k;
      this.shutdown := shutdown;
      this.downloading := downloading;
      this.sensorState := sensorState;
      busyCnt := 0;
      timeOutCnt := 0;
      instFailCnt := 0;
      ssdFailCnt := 0;
      requests := [];
      frames := [];
      fuseRom := [0, 0, 0];
      libraryLength := 0;
    }

    /** waiting_wakeup_mcu: wait for each interrupt line, counting a
      timeout on the first in busyCnt and on the second in timeOutCnt,
      each reset by a wait that ends in time; ERROR exactly on shutdown. */
    method WaitingWakeupMcu(w: WakeLines) returns (st: Status)
      modifies this`busyCnt, this`timeOutCnt
      ensures busyCnt == NextCount(old(busyCnt), TimedOut(w.int1, shutdown))
      ensures timeOutCnt == NextCount(old(timeOutCnt), TimedOut(w.int2, shutdown))
      ensures st == (if shutdown then Error else Success)
    {
      var c1 := PollLine(w.int1, shutdown);
      busyCnt := if c1 >= LimitDelayCnt then busyCnt + 1 else 0;
      var c2 := PollLine(w.int2, shutdown);
      timeOutCnt := if c2 >= LimitDelayCnt then timeOutCnt + 1 else 0;
      st := if shutdown then Error else Success;
    }

    /** waiting_init_mcu: the same waits, which shutdown does not cut
      short; always SUCCESS. */
    method WaitingInitMcu(w: WakeLines) returns (st: Status)
      modifies this`busyCnt, this`timeOutCnt
      ensures busyCnt == NextCount(old(busyCnt), TimedOut(w.int1, false))
      ensures timeOutCnt == NextCount(old(timeOutCnt), TimedOut(w.int2, false))
      ensures st == Success
    {
      var c1 := PollLine(w.int1, false);
      busyCnt := if c1 >= LimitDelayCnt then busyCnt + 1 else 0;
      var c2 := PollLine(w.int2, false);
      timeOutCnt := if c2 >= LimitDelayCnt then timeOutCnt + 1 else 0;
      st := Success;
    }

    /** One call of ssp_i2c_read with command `tx`, into a fresh buffer of
      `rxLen` bytes. */
    method Exchange(tx: seq<byte>, rxLen: nat, retries: nat, attempts: seq<Attempt>) returns (reply: Option<seq<byte>>)
      requires ReadShaped(attempts, |tx|, rxLen, retries)
      modifies this`requests
      ensures requests == old(requests) + [tx]
      ensures reply == ReadReply(attempts, rxLen, retries)
    {
      requests := requests + [tx];
      var rx := new byte[rxLen];
      var ok := I2cRead(|tx|, rx, retries, attempts);
      reply := if ok then Some(rx[..]) else None;
    }

    /** The ACK exchange of ssp_send_cmd and send_instruction: send `tx`;
      a failed read is ERROR; a reply other than the ACK is resent up to
      defaultRetries times (each resend preceded by a wake-up when
      `withWake`) until one is acknowledged, else FAIL. SUCCESS resets
      instFailCnt and FAIL counts in it. */
    method AckExchange(tx: seq<byte>, wakes: seq<WakeLines>, xfers: seq<seq<Attempt>>, withWake: bool) returns (st: Status)
      requires !shutdown
      requires |wakes| == |xfers| == k.defaultRetries + 1
      requires forall i {:trigger xfers[i]} :: 0 <= i < |xfers| ==> ReadShaped(xfers[i], |tx|, 1, k.defaultRetries)
      modifies this`busyCnt, this`timeOutCnt, this`requests, this`instFailCnt
      ensures var rs := Replies(xfers, 1, k.defaultRetries);
        st == AckOutcome(rs, k.msgAck, k.defaultRetries) &&
        requests == old(requests) + Repeat(tx, ReadsMade(rs, k.msgAck, k.defaultRetries)) &&
        instFailCnt == InstFailAfter(old(instFailCnt), st) &&
        busyCnt == (if withWake then BusyAfter(old(busyCnt), wakes[1..ReadsMade(rs, k.msgAck, k.defaultRetries)]) else old(busyCnt)) &&
        timeOutCnt == (if withWake then TimeOutAfter(old(timeOutCnt), wakes[1..ReadsMade(rs, k.msgAck, k.defaultRetries)]) else old(timeOutCnt))
    {
      ghost var rs := Replies(xfers, 1, k.defaultRetries);
      var n := k.defaultRetries;
      var first := Exchange(tx, 1, n, xfers[0]);
      if first.None? {
        return Error;
      }
      if Acked(first, k.msgAck) {
        instFailCnt := 0;
        return Success;
      }
      var acked := Resend(tx, wakes, xfers, withWake);
      if !acked {
        instFailCnt := instFailCnt + 1;
        return Fail;
      }
      instFailCnt := 0;
      st := Success;
    }

    /** The resend loop, `while (iRetries--)` from defaultRetries: resend
      until a reply is the ACK or the resends are spent. */
    method Resend(tx: seq<byte>, wakes: seq<WakeLines>, xfers: seq<seq<Attempt>>, withWake: bool) returns (acked: bool)
      requires !shutdown
      requires |wakes| == |xfers| == k.defaultRetries + 1
      requires forall i {:trigger xfers[i]} :: 0 <= i < |xfers| ==> ReadShaped(xfers[i], |tx|, 1, k.defaultRetries)
      modifies this`busyCnt, this`timeOutCnt, this`requests
      ensures var rs := Replies(xfers, 1, k.defaultRetries);
        var j := FirstAck(rs, k.msgAck, 1, k.defaultRetries);
        var m := if j <= k.defaultRetries then j else k.defaultRetries;
        (acked <==> j <= k.defaultRetries) &&
        requests == old(requests) + Repeat(tx, m) &&
        busyCnt == (if withWake then BusyAfter(old(busyCnt), wakes[1..m + 1]) else old(busyCnt)) &&
        timeOutCnt == (if withWake then TimeOutAfter(old(timeOutCnt), wakes[1..m + 1]) else old(timeOutCnt))
    {
      ghost var rs := Replies(xfers, 1, k.defaultRetries);
      var n := k.defaultRetries;
      var i := 0;
      acked := false;
      while i < n && !acked
        invariant 0 <= i <= n
        invariant acked ==> i >= 1 && Acked(rs[i], k.msgAck)
        invariant forall j :: 1 <= j <= i && !(acked && j == i) ==> !Acked(rs[j], k.msgAck)
        invariant requests == old(requests) + Repeat(tx, i)
        invariant busyCnt == (if withWake then BusyAfter(old(busyCnt), wakes[1..i + 1]) else old(busyCnt))
        invariant timeOutCnt == (if withWake then TimeOutAfter(old(timeOutCnt), wakes[1..i + 1]) else old(timeOutCnt))
      {
        i := i + 1;
        var r := ResendOnce(tx, wakes, xfers, i, withWake, old(busyCnt), old(timeOutCnt), old(requests));
        acked := Acked(r, k.msgAck);
      }
    }

    /** Resend number `i`: a wake-up when `withWake`, then the exchange. */
    method ResendOnce(tx: seq<byte>, wakes: seq<WakeLines>, xfers: seq<seq<Attempt>>, i: nat, withWake: bool,
                      ghost b0: nat, ghost t0: nat, ghost q0: seq<seq<byte>>) returns (r: Option<seq<byte>>)
      requires !shutdown
      requires 1 <= i < |wakes| == |xfers| == k.defaultRetries + 1
      requires forall i {:trigger xfers[i]} :: 0 <= i < |xfers| ==> ReadShaped(xfers[i], |tx|, 1, k.defaultRetries)
      requires requests == q0 + Repeat(tx, i - 1)
      requires busyCnt == (if withWake then BusyAfter(b0, wakes[1..i]) else b0)
      requires timeOutCnt == (if withWake then TimeOutAfter(t0, wakes[1..i]) else t0)
      modifies this`busyCnt, this`timeOutCnt, this`requests
      ensures r == Replies(xfers, 1, k.defaultRetries)[i]
      ensures requests == q0 + Repeat(tx, i)
      ensures busyCnt == (if withWake then BusyAfter(b0, wakes[1..i + 1]) else b0)
      ensures timeOutCnt == (if withWake then TimeOutAfter(t0, wakes[1..i + 1]) else t0)
    {
      if withWake {
        var _ := WaitingWakeupMcu(wakes[i]);
        AfterSnoc(b0, t0, wakes[1..i], wakes[i]);
        assert wakes[1..i + 1] == wakes[1..i] + [wakes[i]];
      }
      r := Exchange(tx, 1, k.defaultRetries, xfers[i]);
      assert Repeat(tx, i - 1) + [tx] == Repeat(tx, i);
    }

    /** ssp_send_cmd: wake the MCU, then the ACK exchange of the one-byte
      command without wake-ups between resends. */
    method SendCmd(command: byte, wake: WakeLines, xfers: seq<seq<Attempt>>) returns (st: Status)
      requires |xfers| == k.defaultRetries + 1
      requires forall i {:trigger xfers[i]} :: 0 <= i < |xfers| ==> ReadShaped(xfers[i], 1, 1, k.defaultRetries)
      modifies this`busyCnt, this`timeOutCnt, this`requests, this`instFailCnt
      ensures shutdown ==>
        st == Error && busyCnt == 0 && timeOutCnt == 0 && requests == old(requests) && instFailCnt == old(instFailCnt)
      ensures !shutdown ==>
        var rs := Replies(xfers, 1, k.defaultRetries);
        st == AckOutcome(rs, k.msgAck, k.defaultRetries) &&
        requests == old(requests) + Repeat([command], ReadsMade(rs, k.msgAck, k.defaultRetries)) &&
        instFailCnt == InstFailAfter(old(instFailCnt), st) &&
        busyCnt == NextCount(old(busyCnt), TimedOut(wake.int1, false)) &&
        timeOutCnt == NextCount(old(timeOutCnt), TimedOut(wake.int2, false))
    {
      var w := WaitingWakeupMcu(wake);
      if w == Error {
        return Error;
      }
      st := AckExchange([command], seq(k.defaultRetries + 1, _ => wake), xfers, false);
    }

    /** Whether send_instruction goes to the bus: not during a firmware
      download, and not for a control instruction to a sensor whose bit
      is clear. */
    predicate Sends(inst: byte, sensorType: byte)
      reads this
    {
      !downloading && (SensorBit(sensorState, sensorType) || inst > k.changeDelay)
    }

    /** send_instruction: during a firmware download SUCCESS without
      sending; a control instruction (up to CHANGE_DELAY) for a sensor
      whose bit is clear FAIL without sending; otherwise wake the MCU,
      build the frame in place and run the ACK exchange with a wake-up
      before each resend. */
    method SendInstruction(inst: byte, sensorType: byte, payload: seq<byte>, wakes: seq<WakeLines>, xfers: seq<seq<Attempt>>)
      returns (st: Status)
      requires |payload| < 256
      requires |wakes| == |xfers| == k.defaultRetries + 1
      requires forall i {:trigger xfers[i]} :: 0 <= i < |xfers| ==> ReadShaped(xfers[i], |payload| + 4, 1, k.defaultRetries)
      modifies this`busyCnt, this`timeOutCnt, this`requests, this`instFailCnt
      ensures !Sends(inst, sensorType) ==>
        st == (if downloading then Success else Fail) &&
        busyCnt == old(busyCnt) && timeOutCnt == old(timeOutCnt) && requests == old(requests) && instFailCnt == old(instFailCnt)
      ensures Sends(inst, sensorType) && shutdown ==>
        st == Error && busyCnt == 0 && timeOutCnt == 0 && requests == old(requests) && instFailCnt == old(instFailCnt)
      ensures Sends(inst, sensorType) && !shutdown ==>
        var rs := Replies(xfers, 1, k.defaultRetries);
        var m := ReadsMade(rs, k.msgAck, k.defaultRetries);
        st == AckOutcome(rs, k.msgAck, k.defaultRetries) &&
        requests == old(requests) + Repeat(InstructionFrame(k, inst, sensorType, payload), m) &&
        instFailCnt == InstFailAfter(old(instFailCnt), st) &&
        busyCnt == BusyAfter(old(busyCnt), wakes[..m]) &&
        timeOutCnt == TimeOutAfter(old(timeOutCnt), wakes[..m])
    {
      if downloading {
        return Success;
      } else if !SensorBit(sensorState, sensorType) && inst <= k.changeDelay {
        return Fail;
      }
      var w := WaitingWakeupMcu(wakes[0]);
      if w == Error {
        return Error;
      }
      var n := |payload|;
      var buf := new byte[n + 4];
      buf[0] := k.msg2sspSsm;
      buf[1] := (n + 4) % 256;
      buf[2] := Opcode(k, inst);
      buf[3] := sensorType;
      forall i | 0 <= i < n {
        buf[4 + i] := payload[i];
      }
      assert buf[..] == InstructionFrame(k, inst, sensorType, payload);
      ghost var b1 := busyCnt;
      ghost var t1 := timeOutCnt;
      st := AckExchange(buf[..], wakes, xfers, true);
      ghost var m := ReadsMade(Replies(xfers, 1, k.defaultRetries), k.msgAck, k.defaultRetries);
      assert wakes[..m][1..] == wakes[1..m];
      assert wakes[..m][0] == wakes[0];
    }

    /** get_firmware_rev: wake the MCU (its ERROR is returned), read three
      bytes; the revision is their big-endian value, or the placeholder
      when the read fails. */
    method GetFirmwareRev(wake: WakeLines, attempts: seq<Attempt>) returns (r: Revision)
      requires ReadShaped(attempts, 1, 3, k.defaultRetries)
      modifies this`busyCnt, this`timeOutCnt, this`requests
      ensures busyCnt == NextCount(old(busyCnt), TimedOut(wake.int1, shutdown))
      ensures timeOutCnt == NextCount(old(timeOutCnt), TimedOut(wake.int2, shutdown))
      ensures shutdown ==> r == WakeFailed && requests == old(requests)
      ensures !shutdown ==>
        requests == old(requests) + [[k.msg2sspApFirmwareRev]] &&
        r == Rev(RevisionOf(ReadReply(attempts, 3, k.defaultRetries)))
    {
      var w := WaitingWakeupMcu(wake);
      if w == Error {
        return WakeFailed;
      }
      var reply := Exchange([k.msg2sspApFirmwareRev], 3, k.defaultRetries, attempts);
      var rev := UnknownRevision;
      if reply.Some? {
        var b := reply.value;
        rev := (b[0] as int) * 0x1_0000 + (b[1] as int) * 0x100 + b[2];
      }
      r := Rev(rev);
    }

    /** get_sensor_scanning_info: wait for the MCU (which cannot fail, so
      the ERROR return is dead), read two bytes; their big-endian value,
      or 0 when the read fails. */
    method GetSensorScanningInfo(wake: WakeLines, attempts: seq<Attempt>) returns (info: nat)
      requires ReadShaped(attempts, 1, 2, k.defaultRetries)
      modifies this`busyCnt, this`timeOutCnt, this`requests
      ensures busyCnt == NextCount(old(busyCnt), TimedOut(wake.int1, false))
      ensures timeOutCnt == NextCount(old(timeOutCnt), TimedOut(wake.int2, false))
      ensures requests == old(requests) + [[k.msg2sspApSensorScanning]]
      ensures var reply := ReadReply(attempts, 2, k.defaultRetries);
        info == (if reply.None? then 0 else Be16(reply.value))
    {
      var _ := WaitingInitMcu(wake);
      var reply := Exchange([k.msg2sspApSensorScanning], 2, k.defaultRetries, attempts);
      if reply.None? {
        return 0;
      }
      info := (reply.value[0] as int) * 0x100 + reply.value[1];
    }

    /** get_fuserom_data: read the two-byte length of the library reply,
      then that many bytes, and keep the first three as the fuse ROM
      data. A failed read, or a length too short to hold the three bytes,
      clears the fuse ROM data and is FAIL; a failed second read also
      drops the library length. */
    method GetFuseromData(wake: WakeLines, first: seq<Attempt>, second: seq<Attempt>) returns (st: Status)
      requires ReadShaped(first, 2, 2, k.defaultRetries)
      requires var r := ReadReply(first, 2, k.defaultRetries);
        r.Some? && FuseRomLengthOk(Be16(r.value)) ==> ReadShaped(second, 1, Be16(r.value), k.defaultRetries)
      modifies this`busyCnt, this`timeOutCnt, this`requests, this`fuseRom, this`libraryLength
      ensures busyCnt == NextCount(old(busyCnt), TimedOut(wake.int1, false))
      ensures timeOutCnt == NextCount(old(timeOutCnt), TimedOut(wake.int2, false))
      ensures var r := ReadReply(first, 2, k.defaultRetries);
        if r.None? || !FuseRomLengthOk(Be16(r.value)) then
          st == Fail && fuseRom == [0, 0, 0] && libraryLength == old(libraryLength) &&
          requests == old(requests) + [[k.msg2sspApStt, k.msg2sspApFuserom]]
        else
          var lib := ReadReply(second, Be16(r.value), k.defaultRetries);
          requests == old(requests) + [[k.msg2sspApStt, k.msg2sspApFuserom], [k.msg2sspSrm]] &&
          libraryLength == 0 &&
          (lib.None? ==> st == Fail && fuseRom == [0, 0, 0]) &&
          (lib.Some? ==> st == Success && fuseRom == lib.value[..3])
      ensures var r := ReadReply(first, 2, k.defaultRetries);
        var lib := if r.Some? && FuseRomLengthOk(Be16(r.value)) then ReadReply(second, Be16(r.value), k.defaultRetries) else None;
        var o := FuseRomRead(r, lib);
        st == o.status && (st == Success ==> fuseRom == seq(3, i requires 0 <= i < 3 => lib.value[o.copied[i]]))
    {
      var _ := WaitingInitMcu(wake);
      var r := Exchange([k.msg2sspApStt, k.msg2sspApFuserom], 2, k.defaultRetries, first);
      if r.None? {
        fuseRom := [0, 0, 0];
        return Fail;
      }
      var len := (r.value[0] as int) * 0x100 + r.value[1];
      if len < 3 {
        fuseRom := [0, 0, 0];
        return Fail;
      }
      libraryLength := len;
      var lib := Exchange([k.msg2sspSrm], len, k.defaultRetries, second);
      if lib.None? {
        libraryLength := 0;
        fuseRom := [0, 0, 0];
        return Fail;
      }
      fuseRom := [lib.value[0], lib.value[1], lib.value[2]];
      libraryLength := 0;
      st := Success;
    }

    /** ssp_receive_msg: read a data frame of `len` bytes, with no retry,
      and hand it on, returning the length; a failed read is ERROR and a
      zero length reads nothing and is FAIL. */
    method ReceiveMsg(len: byte, attempts: seq<Attempt>) returns (res: Received)
      requires len > 0 ==> ReadShaped(attempts, 1, len, 0)
      modifies this`requests, this`frames
      ensures len == 0 ==> res == NotReceived(Fail) && requests == old(requests) && frames == old(frames)
      ensures len > 0 ==>
        var d := ReadReply(attempts, len, 0);
        requests == old(requests) + [[k.msg2sspSrm]] &&
        frames == old(frames) + (if d.None? then [] else [d.value]) &&
        res == (if d.None? then NotReceived(Error) else ReceivedLength(len))
      ensures res.ReceivedLength? ==> res.n == len && |frames| == |old(frames)| + 1 && |frames[|frames| - 1]| == len
    {
      if len == 0 {
        return NotReceived(Fail);
      }
      var d := Exchange([k.msg2sspSrm], len, 0, attempts);
      if d.None? {
        return NotReceived(Error);
      }
      frames := frames + [d.value];
      res := ReceivedLength(len);
    }

    /** select_irq_msg: ask the MCU why it raised its interrupt (two
      bytes, four retries). A failed read is ERROR; everything else is
      SUCCESS: RTS receives a frame of the announced length and clears
      ssdFailCnt, STT (with the sensor hub configured) clears it too,
      NO_DATA changes nothing, and any other reply counts a failure when
      both bytes are zero. */
    method SelectIrqMsg(attempts: seq<Attempt>, msgAttempts: seq<Attempt>) returns (st: Status)
      requires ReadShaped(attempts, 1, 2, 4)
      requires var r := ReadReply(attempts, 2, 4);
        r.Some? && r.value[0] == k.msg2sspRts && r.value[1] > 0 ==> ReadShaped(msgAttempts, 1, r.value[1], 0)
      modifies this`requests, this`frames, this`ssdFailCnt
      ensures var r := ReadReply(attempts, 2, 4);
        if r.None? then
          st == Error && requests == old(requests) + [[k.msg2sspSsd]] &&
          frames == old(frames) && ssdFailCnt == old(ssdFailCnt)
        else
          var b0, b1 := r.value[0], r.value[1];
          st == Success &&
          (b0 == k.msg2sspRts ==>
            ssdFailCnt == 0 &&
            (b1 == 0 ==> requests == old(requests) + [[k.msg2sspSsd]] && frames == old(frames)) &&
            (b1 > 0 ==>
              var d := ReadReply(msgAttempts, b1, 0);
              requests == old(requests) + [[k.msg2sspSsd], [k.msg2sspSrm]] &&
              frames == old(frames) + (if d.None? then [] else [d.value]))) &&
          (b0 != k.msg2sspRts ==>
            requests == old(requests) + [[k.msg2sspSsd]] && frames == old(frames) &&
            ssdFailCnt == (if k.sensorhubConfigured && b0 == k.msg2sspStt then 0
                           else if b0 != k.msg2sspNoData && b0 == 0 && b1 == 0 then old(ssdFailCnt) + 1
                           else old(ssdFailCnt)))
    {
      var r := Exchange([k.msg2sspSsd], 2, 4, attempts);
      if r.None? {
        return Error;
      }
      var b0, b1 := r.value[0], r.value[1];
      if b0 == k.msg2sspRts {
        var _ := ReceiveMsg(b1, msgAttempts);
        ssdFailCnt := 0;
      } else if k.sensorhubConfigured && b0 == k.msg2sspStt {
        ssdFailCnt := 0;
      } else if b0 == k.msg2sspNoData {
      } else if b0 == 0 && b1 == 0 {
        ssdFailCnt := ssdFailCnt + 1;
      }
      st := Success;
    }
  }
}
