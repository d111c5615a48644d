/** The USB BAM pipe manager: the connection table and its per-BAM
    arrays, connect and disconnect with their bookkeeping, the IPA
    connect/disconnect sequences with their resource-manager handshake,
    the wake/inactivity filter, the low-power gate and the lookups.
    Spinlocks and the workqueue are left to the caller: every method is
    one atomic step, and a queued work item is a flag in its connection
    that `Work` clears when the item runs. */
module UsbBam {
  import opened Wrappers
  import opened BamTypes
  import opened PipeBackend

  /** ipa_rm_event values kept in cur_prod_state / cur_cons_state. */
  datatype RmEvent = Granted | Released | OtherEvent(code: int)

  /** A call into the SPS, IPA resource manager or power services, or a
      callback of a client, made by the manager, in order. */
  datatype HwCall =
    | DeviceReset(bam: BamId)
    | Backend(idx: nat, actions: seq<BackendAction>)
    | TimerArmed(bam: BamId, ms: int)
    | WakeEventRegistered(idx: nat, hasCallback: bool)
    | WakeOptionsSet(idx: nat, wakeup: bool)
    | CallbackRun(idx: nat, kind: EventKind)
    | ProdRequested(bam: BamId)
    | ProdReleaseRequested(bam: BamId)
    | NotifyConsGranted(bam: BamId)
    | NotifyConsReleased(bam: BamId)
    | IpaClientDisconnected(handle: nat)
    | LpmSuspend

  /** A call that frees coherent system memory. */
  predicate FreesCoherent(h: HwCall)
  {
    h.Backend? && FreeCoherent in h.actions
  }

  /** usb_bam_connect_ipa_params: the direction, the connection indexes
      for each direction, whether the caller passes activity and
      inactivity callbacks, and the IPA client handles (0 when absent). */
  datatype IpaParams = IpaParams(
    dir: Dir,
    srcIdx: nat,
    dstIdx: nat,
    hasActivityCb: bool,
    hasInactivityCb: bool,
    prodHandle: nat,
    consHandle: nat)

  /** A connection as probe leaves it: disabled, no event armed, nothing
      queued, no FIFO memory held. */
  function AtProbe(c: PipeConnection): PipeConnection
  {
    c.(enabled := false, event := EventInfo(NoEvent, false), workQueued := false, fifoPhysSet := false)
  }

  /** The BAM a connection belongs to, its peer, direction and pipe
      number are the ones usb_bam_get_connection_idx looks for. */
  predicate Matches(c: PipeConnection, bam: BamId, peer: nat, dir: Dir, num: nat)
  {
    c.bam == bam && c.peer == peer && c.dir == dir && c.pipeNum == num
  }

  /** `i` is the lowest index of a connection of BAM `bam` in `t`. */
  predicate IsFirstOfBam(t: seq<PipeConnection>, i: int, bam: BamId)
  {
    0 <= i < |t| && t[i].bam == bam && forall j :: 0 <= j < i ==> t[j].bam != bam
  }

  /** The SPS pipe slot of the first connection of `bam` in `t` holds a
      handle (`slots[i]` says whether slot `i` is non-NULL):
      usb_bam_set_inactivity_timer reaches the BAM's timer through that
      slot only. */
  predicate FirstPipeHasHandle(t: seq<PipeConnection>, slots: seq<bool>, bam: BamId)
  {
    exists i :: 0 <= i < |t| && i < |slots| && IsFirstOfBam(t, i, bam) && slots[i]
  }

  /** Every enabled connection of `t` has a non-NULL SPS pipe slot in
      `slots`: both connect paths enable a pipe only after its endpoint
      was allocated. */
  predicate HandlesHeld(t: seq<PipeConnection>, slots: seq<bool>)
  {
    |slots| == |t| && forall i :: 0 <= i < |t| && t[i].enabled ==> slots[i]
  }

  /** A BAM has at most one first connection. */
  lemma FirstOfBamUnique(t: seq<PipeConnection>, i: int, bam: BamId)
    requires IsFirstOfBam(t, i, bam)
    ensures forall j :: IsFirstOfBam(t, j, bam) ==> j == i
  {
  }

  /** Only the BAMs of the connections decide which one is a BAM's first,
      so changing anything else in a connection keeps the answer. */
  lemma FirstPipeHasHandleUpdate(t: seq<PipeConnection>, idx: nat, x: PipeConnection, slots: seq<bool>, bam: BamId)
    requires idx < |t| && x.bam == t[idx].bam
    ensures FirstPipeHasHandle(t[idx := x], slots, bam) == FirstPipeHasHandle(t, slots, bam)
  {
    assert forall j :: 0 <= j < |t| ==> t[idx := x][j].bam == t[j].bam;
    forall i | 0 <= i < |t| ensures IsFirstOfBam(t[idx := x], i, bam) == IsFirstOfBam(t, i, bam) {
    }
  }

  /** An enabled connection usb_bam_a2_reset cycles: its name contains
      "a2". */
  predicate IsA2Enabled(c: PipeConnection)
  {
    StrnStr(c.name, "a2", MaxStrLen) && c.enabled
  }

  /** An enabled inbound connection of BAM `bam`: the ones whose wake
      event the inactivity work re-arms. */
  predicate Rearmable(c: PipeConnection, bam: BamId)
  {
    c.bam == bam && c.dir == PeerToUsb && c.enabled
  }

  /** The connection after the inactivity work re-armed it for a global
      wake with its activity callback. */
  function Rearmed(c: PipeConnection, bam: BamId): PipeConnection
  {
    if Rearmable(c, bam) then c.(event := EventInfo(Wakeup, c.hasActivityCb)) else c
  }

  /** The calls __usb_bam_register_wake_cb makes for pipe `idx`: register
      the event, then, if that succeeded, set the pipe's options. */
  function RegisterCalls(idx: nat, hasCallback: bool, registerRet: int): seq<HwCall>
  {
    [WakeEventRegistered(idx, hasCallback)] + (if registerRet == 0 then [WakeOptionsSet(idx, hasCallback)] else [])
  }

  /** The calls the inactivity work makes while re-arming the first `n`
      connections of `t`. */
  function RearmCalls(t: seq<PipeConnection>, bam: BamId, rets: seq<int>, n: nat): seq<HwCall>
    requires n <= |t| && |rets| == |t|
  {
    if n == 0 then []
    else
      RearmCalls(t, bam, rets, n - 1) +
      (if Rearmable(t[n - 1], bam) then RegisterCalls(n - 1, t[n - 1].hasActivityCb, rets[n - 1]) else [])
  }

  /** usb_bam_wake_cb's decision for a pipe whose event slot holds `kind`
      on a BAM whose inactivity flag is `inactive`: whether the pipe's
      work is queued, and the new flag. */
  function WakeFilter(kind: EventKind, inactive: bool): (bool, bool)
  {
    if kind == WakeupPipe then (true, inactive)
    else if kind == Wakeup && inactive then (true, false)
    else (false, inactive)
  }

  /** A per-pipe wake is always delivered; a global wake is delivered once
      per inactivity period: the first one clears the flag and any later
      one is dropped until the timer interrupt sets it again. */
  lemma WakeFilterOncePerBam(inactive: bool)
    ensures WakeFilter(WakeupPipe, inactive) == (true, inactive)
    ensures WakeFilter(Wakeup, inactive) == (inactive, false)
    ensures !WakeFilter(Wakeup, WakeFilter(Wakeup, inactive).1).0
    ensures WakeFilter(Wakeup, true).0
    ensures !WakeFilter(Inactivity, inactive).0 && !WakeFilter(NoEvent, inactive).0
  {
  }

  /** The low-power gate: sched_lpm and lpm_wait_handshake. */
  datatype LpmGate = LpmGate(schedLpm: bool, waitHandshake: bool)

  /** msm_bam_lpm_ok: refuse and remember the request while the handshake
      is in progress, allow otherwise. */
  function LpmOkStep(g: LpmGate): (LpmGate, bool)
  {
    if g.waitHandshake then (g.(schedLpm := true), false) else (g, true)
  }

  /** usb_bam_start_lpm: end the wait and suspend if a request was
      refused. sched_lpm is left set. */
  function StartLpmStep(g: LpmGate): (LpmGate, bool)
  {
    (g.(waitHandshake := false), g.schedLpm)
  }

  /** The start of an HSUSB IPA connect. */
  function HandshakeBegins(g: LpmGate): LpmGate
  {
    LpmGate(false, true)
  }

  /** A low-power request made during the handshake is deferred, not
      lost: it is refused, and the end of the handshake suspends the
      controller, after which requests are allowed again. Without such a
      request, the end of the handshake does not suspend. */
  lemma LpmDeferredUntilHandshakeEnds(g: LpmGate)
    ensures var (g1, ok) := LpmOkStep(HandshakeBegins(g));
      !ok && StartLpmStep(g1).1 && LpmOkStep(StartLpmStep(g1).0).1
    ensures !StartLpmStep(HandshakeBegins(g)).1
  {
  }

  /** The BAM of the last of the first `n` connections of `t` that
      IsA2Enabled, if there is one: the `bam` usb_bam_a2_reset's first
      loop leaves. */
  function LastA2Bam(t: seq<PipeConnection>, n: nat): Option<BamId>
    requires n <= |t|
  {
    if n == 0 then None
    else if IsA2Enabled(t[n - 1]) then Some(t[n - 1].bam)
    else LastA2Bam(t, n - 1)
  }

  /** LastA2Bam names a BAM exactly when some connection IsA2Enabled, and
      then it is the BAM of such a connection with none after it. */
  lemma {:induction false} LastA2BamIsLast(t: seq<PipeConnection>, n: nat)
    requires n <= |t|
    ensures LastA2Bam(t, n).Some? <==> exists j :: 0 <= j < n && IsA2Enabled(t[j])
    ensures LastA2Bam(t, n).Some? ==>
      exists j :: (0 <= j < n && IsA2Enabled(t[j]) && t[j].bam == LastA2Bam(t, n).value &&
        forall k :: j < k < n ==> !IsA2Enabled(t[k]))
  {
    if n > 0 && !IsA2Enabled(t[n - 1]) {
      LastA2BamIsLast(t, n - 1);
      if LastA2Bam(t, n).Some? {
        var j :| 0 <= j < n - 1 && IsA2Enabled(t[j]) && t[j].bam == LastA2Bam(t, n).value &&
          forall k :: j < k < n - 1 ==> !IsA2Enabled(t[k]);
        assert forall k :: j < k < n ==> !IsA2Enabled(t[k]);
      }
    }
  }

  /** usb_bam_a2_reset's choice of BAM to reset, as written: `bam` is a
      u8 set to -1, that is 255, and the guard compares it with the int
      -1, which a u8 never equals; so a reset is always issued, and with
      index 255 when no "a2" pipe was enabled. */
  function A2ResetTargetAsWritten(lastA2Bam: Option<BamId>): Option<int>
  {
    var bam := if lastA2Bam.Some? then lastA2Bam.value else (-1) % 256;
    if bam != -1 then Some(bam) else None
  }

  /** The evidently intended choice: reset the BAM of the last "a2" pipe
      disconnected, if there was one. */
  function A2ResetTarget(lastA2Bam: Option<BamId>): (r: Option<int>)
    ensures r.Some? <==> lastA2Bam.Some?
    ensures r.Some? ==> 0 <= r.value < MaxBams && r.value == lastA2Bam.value
  {
    if lastA2Bam.Some? then Some(lastA2Bam.value) else None
  }

  lemma A2ResetAsWrittenIndexesPastEnd()
    ensures A2ResetTargetAsWritten(None) == Some(255)
    ensures A2ResetTarget(None) == None
    ensures forall b: BamId :: A2ResetTargetAsWritten(Some(b)) == A2ResetTarget(Some(b))
  {
  }

  /** The codes of the reconnects of usb_bam_a2_reset, connection by
      connection of `t0` (the table before the reset): `connect_pipe`'s code
      for an enabled "a2" connection, disabled; 0 for the others, which are
      not reconnected. */
  function ReconnectCodes(t0: seq<PipeConnection>, oracles: seq<ConnectOracle>): (codes: seq<int>)
    requires |t0| == |oracles|
    ensures |codes| == |t0|
    ensures forall j :: 0 <= j < |t0| ==>
      codes[j] == if IsA2Enabled(t0[j]) then ConnectPipe(t0[j].(enabled := false), oracles[j]).ret else 0
  {
    seq(|t0|, j requires 0 <= j < |t0| =>
      if IsA2Enabled(t0[j]) then ConnectPipe(t0[j].(enabled := false), oracles[j]).ret else 0)
  }

  /** What `ret = ret_int` in a loop over the first `n` of `codes` leaves:
      the last non-zero code, or 0 when there is none. */
  function LastFailure(codes: seq<int>, n: nat): int
    requires n <= |codes|
  {
    if n == 0 then 0
    else if codes[n - 1] != 0 then codes[n - 1]
    else LastFailure(codes, n - 1)
  }

  /** The loop's result is 0 exactly when every code is 0, and otherwise is
      one of the codes. */
  lemma {:induction false} LastFailureReportsFailure(codes: seq<int>, n: nat)
    requires n <= |codes|
    ensures LastFailure(codes, n) == 0 <==> forall j :: 0 <= j < n ==> codes[j] == 0
    ensures LastFailure(codes, n) != 0 ==> exists j :: 0 <= j < n && codes[j] == LastFailure(codes, n)
  {
    if n > 0 {
      LastFailureReportsFailure(codes, n - 1);
    }
  }

  /** The index guard of usb_bam_connect and __usb_bam_register_wake_cb as
      written, and as evidently intended (usb_bam_connect_ipa's). */
  predicate IndexRejectedAsWritten(idx: int, maxConnections: nat)
  {
    idx < 0 || idx > maxConnections
  }

  predicate IndexRejected(idx: int, maxConnections: nat)
  {
    idx < 0 || idx >= maxConnections
  }

  /** The written guard lets the index one past the table through; the
      intended one admits exactly the table's indexes. */
  lemma IndexGuardOffByOne(n: nat)
    ensures !IndexRejectedAsWritten(n, n) && IndexRejected(n, n)
    ensures forall idx: int :: !IndexRejected(idx, n) <==> 0 <= idx < n
  {
  }

  /** The connection index usb_bam_connect_ipa acts on. */
  function IpaIndex(q: IpaParams): nat
  {
    if q.dir == UsbToPeer then q.srcIdx else q.dstIdx
  }

  /** What usb_bam_connect_ipa leaves in the table (`t0` to `t1`) and in
      the BAM's counter (`n0` to `n1`) for connection `c` at `idx`, which
      was not enabled: the connection as connect_pipe_ipa updated it,
      enabled and counted only on success, and on success the client
      handle returned in the parameter block. */
  ghost predicate IpaConnected(c: PipeConnection, idx: nat, q: IpaParams, o: IpaOracle, ret: int, p': Option<IpaParams>,
    t0: seq<PipeConnection>, t1: seq<PipeConnection>, n0: int, n1: int)
  {
    var out := ConnectPipeIpa(c, o);
    var c1 := ApplyIpaOutcome(c, q.dir, q.hasActivityCb, q.hasInactivityCb, out);
    idx < |t0| && ret == out.ret &&
    (ret == 0 ==>
      t1 == t0[idx := c1.(enabled := true, fifoPhysSet := true)] && n1 == n0 + 1 &&
      p' == Some(if q.dir == UsbToPeer then q.(consHandle := o.clientHandle) else q.(prodHandle := o.clientHandle))) &&
    (ret != 0 ==> t1 == t0[idx := c1] && n1 == n0)
  }

  /** The SPS pipe slots after connect_pipe_ipa answered `out` for the
      connection at `idx`: its slot holds what the allocation stored, or
      is left alone when the allocation was not reached. */
  predicate SlotsAfterIpaConnect(s0: seq<bool>, s1: seq<bool>, idx: nat, out: IpaOutcome)
  {
    idx < |s0| && s1 == if out.endpoint.Some? then s0[idx := out.endpoint.value] else s0
  }

  /** The calls of one half of usb_bam_disconnect_ipa for the connection
      `c` at `idx`: the IPA disconnect of client `handle`, then, if it
      succeeded, the disconnect of a pipe that is enabled, with its
      physical FIFO base cleared. */
  function IpaPipeDisconnectCalls(idx: nat, handle: nat, disconnectRet: int, c: PipeConnection): seq<HwCall>
  {
    [IpaClientDisconnected(handle)] +
    (if disconnectRet == 0 && c.enabled then [Backend(idx, DisconnectPipeActions(c.memType, false))] else [])
  }

  /** The calls of the consumer half of usb_bam_disconnect_ipa: those of
      IpaPipeDisconnectCalls and, once the pipe is down, the completion of
      a consumer release already recorded (`cons`) and the suspend of a
      low-power request deferred during the handshake (`schedLpm`). */
  function ConsumerDisconnectCalls(idx: nat, handle: nat, disconnectRet: int, c: PipeConnection, cons: RmEvent,
    schedLpm: bool): seq<HwCall>
  {
    IpaPipeDisconnectCalls(idx, handle, disconnectRet, c) +
    (if disconnectRet != 0 then []
     else (if cons == Released then [NotifyConsReleased(c.bam)] else []) + (if schedLpm then [LpmSuspend] else []))
  }

  /** The calls of usb_bam_disconnect_ipa for parameters `p` on table `t`
      with consumer states `cons` and sched_lpm `schedLpm`: the producer
      release and producer half, then, unless the producer's IPA
      disconnect failed, the consumer half, which sees the destination
      pipe already down when both halves name the same connection. */
  function DisconnectIpaCalls(p: IpaParams, t: seq<PipeConnection>, prodDisconnectRet: int, consDisconnectRet: int,
    cons: seq<RmEvent>, schedLpm: bool): seq<HwCall>
    requires p.prodHandle != 0 ==> p.dstIdx < |t|
    requires p.consHandle != 0 ==> p.srcIdx < |t|
    requires |cons| == MaxBams
  {
    (if p.prodHandle == 0 then []
     else [ProdReleaseRequested(t[p.dstIdx].bam)] + IpaPipeDisconnectCalls(p.dstIdx, p.prodHandle, prodDisconnectRet, t[p.dstIdx])) +
    (if p.consHandle == 0 || (p.prodHandle != 0 && prodDisconnectRet != 0) then []
     else
       var c := t[p.srcIdx];
       var c' := if p.prodHandle != 0 && p.dstIdx == p.srcIdx then c.(enabled := false, fifoPhysSet := false) else c;
       ConsumerDisconnectCalls(p.srcIdx, p.consHandle, consDisconnectRet, c', cons[c.bam], schedLpm))
  }

  /** None of the calls of usb_bam_disconnect_ipa frees coherent memory:
      the FIFO base is cleared before each pipe is disconnected, since
      that memory belongs to IPA. */
  lemma {:induction false} DisconnectIpaFreesNoCoherent(p: IpaParams, t: seq<PipeConnection>, prodDisconnectRet: int,
    consDisconnectRet: int, cons: seq<RmEvent>, schedLpm: bool)
    requires p.prodHandle != 0 ==> p.dstIdx < |t|
    requires p.consHandle != 0 ==> p.srcIdx < |t|
    requires |cons| == MaxBams
    ensures forall h :: h in DisconnectIpaCalls(p, t, prodDisconnectRet, consDisconnectRet, cons, schedLpm) ==> !FreesCoherent(h)
  {
    if p.prodHandle != 0 {
      IpaPipeDisconnectFreesNoCoherent(p.dstIdx, p.prodHandle, prodDisconnectRet, t[p.dstIdx]);
    }
    if p.consHandle != 0 && !(p.prodHandle != 0 && prodDisconnectRet != 0) {
      var c := t[p.srcIdx];
      var c' := if p.prodHandle != 0 && p.dstIdx == p.srcIdx then c.(enabled := false, fifoPhysSet := false) else c;
      IpaPipeDisconnectFreesNoCoherent(p.srcIdx, p.consHandle, consDisconnectRet, c');
    }
  }

  lemma IpaPipeDisconnectFreesNoCoherent(idx: nat, handle: nat, disconnectRet: int, c: PipeConnection)
    ensures forall h :: h in IpaPipeDisconnectCalls(idx, handle, disconnectRet, c) ==> !FreesCoherent(h)
  {
    DisconnectFreesCoherentOnlyWhenHeld(c.memType, false);
  }

  /** IpaConnectCalls is the calls made up to connect_pipe_ipa followed by
      those made once it succeeded. */
  lemma IpaConnectCallsSplit(c: PipeConnection, idx: nat, q: IpaParams, o: IpaOracle, reset: bool, n0: int, ms: int,
    handle: bool, cons: RmEvent)
    ensures var out := ConnectPipeIpa(c, o);
      var c1 := ApplyIpaOutcome(c, q.dir, q.hasActivityCb, q.hasInactivityCb, out);
      IpaConnectCalls(c, idx, q, o, reset, n0, ms, handle, cons) ==
        ((if reset && n0 == 0 then [DeviceReset(c.bam)] else []) +
         (if q.dir == UsbToPeer then [ProdRequested(c.bam)] else []) + [Backend(idx, out.actions)]) +
        (if out.ret == 0 then IpaEnableCalls(c.bam, n0, ms, c1.hasInactivityCb, handle, q.dir, cons) else [])
  {
  }

  lemma AppendAssoc<T>(a: seq<T>, b: seq<T>, c: seq<T>)
    ensures (a + b) + c == a + (b + c)
  {
  }

  /** The calls usb_bam_connect_ipa makes for connection `c` at `idx`,
      which was not enabled, given the BAM's reset_on_connect, counter
      `n0`, timer `ms`, whether the SPS pipe slot of the BAM's first
      connection holds a handle once connect_pipe_ipa returned (`handle`)
      and consumer state `cons`. */
  function IpaConnectCalls(c: PipeConnection, idx: nat, q: IpaParams, o: IpaOracle, resetOnConnect: bool, n0: int,
    ms: int, handle: bool, cons: RmEvent): seq<HwCall>
  {
    var out := ConnectPipeIpa(c, o);
    var c1 := ApplyIpaOutcome(c, q.dir, q.hasActivityCb, q.hasInactivityCb, out);
    (if resetOnConnect && n0 == 0 then [DeviceReset(c.bam)] else []) +
    (if q.dir == UsbToPeer then [ProdRequested(c.bam)] else []) +
    [Backend(idx, out.actions)] +
    (if out.ret == 0 then IpaEnableCalls(c.bam, n0, ms, c1.hasInactivityCb, handle, q.dir, cons) else [])
  }

  /** The calls made once connect_pipe_ipa succeeded: the timer of a BAM
      whose first enabled pipe this is, armed only when the BAM's first
      connection has an SPS pipe handle (`handle`), and the completion of
      a consumer grant that arrived before an incoming pipe was up. */
  function IpaEnableCalls(bam: BamId, n0: int, ms: int, hasInactivityCb: bool, handle: bool, dir: Dir, cons: RmEvent): seq<HwCall>
  {
    (if n0 == 0 && ms != 0 && hasInactivityCb && handle then [TimerArmed(bam, ms)] else []) +
    (if dir == PeerToUsb && cons == Granted then [NotifyConsGranted(bam)] else [])
  }

  class BamManager {
    /** Whether probe ran: usb_bam_connect checks the platform device. */
    const probed: bool
    /** reset_on_connect of the platform data, per BAM. */
    const resetOnConnect: seq<bool>
    /** usb_bam_connections[0 .. max_connections). */
    const table: array<PipeConnection>
    const pipesEnabled: array<int>
    const timerMs: array<int>
    const inactive: array<bool>
    const prodState: array<RmEvent>
    const consState: array<RmEvent>
    /** Whether usb_bam_sps.sps_pipes[i] is non-NULL: zeroed at probe,
        written by the endpoint allocation of connect_pipe and
        connect_pipe_ipa, and never cleared, since freeing the endpoint
        leaves the pointer in place. */
    const spsPipes: array<bool>
    var schedLpm: bool
    var lpmWaitHandshake: bool
    /** Calls made so far, in order. */
    var hw: seq<HwCall>

    /** The table fits the u8 max_connections, the per-BAM arrays have one
        slot per BAM, each BAM's counter is the number of its enabled
        connections, and an enabled connection has an SPS pipe handle. */
    predicate Valid()
      reads this, table, pipesEnabled, spsPipes
    {
      table.Length <= 255 && (!probed ==> table.Length == 0) &&
      |resetOnConnect| == MaxBams &&
      pipesEnabled.Length == MaxBams && timerMs.Length == MaxBams && inactive.Length == MaxBams &&
      prodState.Length == MaxBams && consState.Length == MaxBams &&
      pipesEnabled != timerMs && prodState != consState &&
      spsPipes.Length == table.Length && spsPipes != inactive &&
      (forall b: BamId :: pipesEnabled[b] == CountEnabled(table[..], b)) &&
      HandlesHeld(table[..], spsPipes[..])
    }

    /** FirstPipeHasHandle on the current table and slots. */
    predicate TimerReachable(bam: BamId)
      reads this, table, spsPipes
    {
      FirstPipeHasHandle(table[..], spsPipes[..], bam)
    }

    function Gate(): LpmGate
      reads this
    {
      LpmGate(schedLpm, lpmWaitHandshake)
    }

    /** The reset usb_bam_connect and usb_bam_connect_ipa issue before the
        first pipe of a BAM that asks for one. */
    function ResetBeforeConnect(bam: BamId, count: int): seq<HwCall>
      requires |resetOnConnect| == MaxBams
    {
      if resetOnConnect[bam] && count == 0 then [DeviceReset(bam)] else []
    }

    /** usb_bam_probe's initialisation; without a platform device the
        table is empty. */
    constructor (probed: bool, conns: seq<PipeConnection>, resetOnConnect: seq<bool>)
      requires |conns| <= 255 && |resetOnConnect| == MaxBams
      ensures Valid()
      ensures this.probed == probed && this.resetOnConnect == resetOnConnect
      ensures table[..] == if probed then seq(|conns|, i requires 0 <= i < |conns| => AtProbe(conns[i])) else []
      ensures forall b: BamId ::
        pipesEnabled[b] == 0 && timerMs[b] == 0 && !inactive[b] && prodState[b] == Released && consState[b] == Released
      ensures forall i :: 0 <= i < spsPipes.Length ==> !spsPipes[i]
      ensures !schedLpm && !lpmWaitHandshake && hw == []
    {
      this.probed := probed;
      this.resetOnConnect := resetOnConnect;
      var n := if probed then |conns| else 0;
      table := new PipeConnection[n](i requires 0 <= i < n reads {} => AtProbe(conns[i]));
      pipesEnabled := new int[MaxBams](_ => 0);
      timerMs := new int[MaxBams](_ => 0);
      inactive := new bool[MaxBams](_ => false);
      prodState := new RmEvent[MaxBams](_ => Released);
      consState := new RmEvent[MaxBams](_ => Released);
      spsPipes := new bool[n](_ => false);
      schedLpm := false;
      lpmWaitHandshake := false;
      hw := [];
      new;
      forall b: BamId ensures CountEnabled(table[..], b) == 0 {
        CountEnabledNone(table[..], b);
      }
    }

    /** Set entry `idx` to `x`, which has the same BAM and enabled flag:
        the counters stay right. */
    method SetEntry(idx: nat, x: PipeConnection)
      requires Valid() && idx < table.Length
      requires x.bam == table[idx].bam && x.enabled == table[idx].enabled
      modifies table
      ensures Valid()
      ensures table[..] == old(table[..])[idx := x]
    {
      forall b: BamId ensures CountEnabled(table[..][idx := x], b) == CountEnabled(table[..], b) {
        CountEnabledUpdate(table[..], idx, x, b);
      }
      table[idx] := x;
    }

    /** Store whether the endpoint allocation for the connection at `idx`,
        which is not enabled, returned a handle. */
    method StoreEndpoint(idx: nat, handle: bool)
      requires Valid() && idx < table.Length && !table[idx].enabled
      modifies spsPipes
      ensures Valid()
      ensures spsPipes[..] == old(spsPipes[..])[idx := handle]
    {
      spsPipes[idx] := handle;
    }

    /** Enable the connection at `idx`, whose endpoint is allocated, with
        its FIFO base set, and count it in its BAM's counter. */
    method EnableEntry(idx: nat)
      requires Valid() && idx < table.Length && !table[idx].enabled && spsPipes[idx]
      modifies table, pipesEnabled
      ensures Valid()
      ensures table[..] == old(table[..])[idx := old(table[idx]).(enabled := true, fifoPhysSet := true)]
      ensures var bam := old(table[idx]).bam;
        pipesEnabled[..] == old(pipesEnabled[..])[bam := old(pipesEnabled[bam]) + 1]
    {
      var c := table[idx];
      var x := c.(enabled := true, fifoPhysSet := true);
      forall b: BamId ensures CountEnabled(table[..][idx := x], b) == CountEnabled(table[..], b) + (if b == c.bam then 1 else 0) {
        CountEnabledUpdate(table[..], idx, x, b);
      }
      table[idx] := x;
      pipesEnabled[c.bam] := pipesEnabled[c.bam] + 1;
    }

    /** Lowest index of a connection of `bam`, or -1 if it has none. */
    method FirstPipeOfBam(bam: BamId) returns (i: int)
      ensures i == -1 || IsFirstOfBam(table[..], i, bam)
      ensures i == -1 <==> forall j :: 0 <= j < table.Length ==> table[j].bam != bam
    {
      i := 0;
      while i < table.Length
        invariant 0 <= i <= table.Length
        invariant forall j :: 0 <= j < i ==> table[j].bam != bam
      {
        if table[i].bam == bam {
          return i;
        }
        i := i + 1;
      }
      return -1;
    }

    /** usb_bam_set_inactivity_timer: configure and restart the BAM's
        one-shot inactivity timer through the SPS pipe handle of the BAM's
        first connection; when the BAM has no connection or that slot is
        NULL, the timer is left alone. An enabled first connection always
        has the handle. */
    method SetInactivityTimer(bam: BamId)
      requires Valid()
      modifies this
      ensures hw == old(hw) + (if TimerReachable(bam) then [TimerArmed(bam, timerMs[bam])] else [])
      ensures forall i :: IsFirstOfBam(table[..], i, bam) && table[i].enabled ==> TimerReachable(bam)
      ensures schedLpm == old(schedLpm) && lpmWaitHandshake == old(lpmWaitHandshake)
    {
      var i := FirstPipeOfBam(bam);
      if i >= 0 && spsPipes[i] {
        hw := hw + [TimerArmed(bam, timerMs[bam])];
      } else if i >= 0 {
        FirstOfBamUnique(table[..], i, bam);
      }
    }

    /** usb_bam_connect for an index inside the table: a missing device,
        an enabled connection and a missing index out-parameter return at once;
        otherwise reset the BAM if it asks for it before its first pipe,
        connect the pipe, which stores the allocated endpoint in the
        connection's SPS pipe slot, and, on success, enable it and count
        it. */
    method Connect(idx: nat, hasPipeIdxPtr: bool, o: ConnectOracle) returns (ret: int, pipeIdx: Option<nat>)
      requires Valid() && idx < table.Length
      modifies this, table, pipesEnabled, spsPipes
      ensures Valid()
      ensures var c := old(table[idx]);
        if !probed || c.enabled || !hasPipeIdxPtr then
          ret == (if !probed then -ENODEV else if c.enabled then 0 else -EINVAL) && pipeIdx == None &&
          table[..] == old(table[..]) && pipesEnabled[..] == old(pipesEnabled[..]) && hw == old(hw) &&
          spsPipes[..] == old(spsPipes[..])
        else
          var out := ConnectPipe(c, o);
          ret == out.ret && pipeIdx == out.usbPipeIdx &&
          spsPipes[..] == old(spsPipes[..])[idx := o.endpointAllocated] &&
          hw == old(hw) + ResetBeforeConnect(c.bam, old(pipesEnabled[c.bam])) + [Backend(idx, out.actions)] &&
          (ret == 0 ==>
            table[..] == old(table[..])[idx := c.(enabled := true, fifoPhysSet := true)] &&
            pipesEnabled[c.bam] == old(pipesEnabled[c.bam]) + 1 &&
            forall b: BamId :: b != c.bam ==> pipesEnabled[b] == old(pipesEnabled[b])) &&
          (ret != 0 ==> table[..] == old(table[..]) && pipesEnabled[..] == old(pipesEnabled[..]))
      ensures Gate() == old(Gate())
    {
      pipeIdx := None;
      if !probed {
        return -ENODEV, None;
      }
      var c := table[idx];
      if c.enabled {
        return 0, None;
      }
      if !hasPipeIdxPtr {
        return -EINVAL, None;
      }
      hw := hw + ResetBeforeConnect(c.bam, pipesEnabled[c.bam]);
      var out := ConnectPipe(c, o);
      spsPipes[idx] := o.endpointAllocated;
      hw := hw + [Backend(idx, out.actions)];
      pipeIdx := out.usbPipeIdx;
      if out.ret != 0 {
        return out.ret, pipeIdx;
      }
      EnableEntry(idx);
      ret := 0;
    }

    /** usb_bam_disconnect_pipe: a connection that is not enabled is left
        alone; otherwise disconnect it, clear its flag and decrement its
        BAM's counter, which the code only logs when it is already 0. */
    method DisconnectPipe(idx: nat) returns (ret: int)
      requires Valid() && idx < table.Length
      modifies this, table, pipesEnabled
      ensures Valid()
      ensures ret == 0
      ensures var c := old(table[idx]);
        if !c.enabled then
          table[..] == old(table[..]) && pipesEnabled[..] == old(pipesEnabled[..]) && hw == old(hw)
        else
          table[..] == old(table[..])[idx := c.(enabled := false)] &&
          pipesEnabled[c.bam] == old(pipesEnabled[c.bam]) - 1 &&
          (forall b: BamId :: b != c.bam ==> pipesEnabled[b] == old(pipesEnabled[b])) &&
          hw == old(hw) + [Backend(idx, DisconnectPipeActions(c.memType, c.fifoPhysSet))]
      ensures forall b: BamId :: pipesEnabled[b] >= 0
      ensures Gate() == old(Gate())
    {
      var c := table[idx];
      if !c.enabled {
        return 0;
      }
      hw := hw + [Backend(idx, DisconnectPipeActions(c.memType, c.fifoPhysSet))];
      var x := c.(enabled := false);
      forall b: BamId ensures CountEnabled(table[..][idx := x], b) == CountEnabled(table[..], b) - (if b == c.bam then 1 else 0) {
        CountEnabledUpdate(table[..], idx, x, b);
      }
      table[idx] := x;
      if pipesEnabled[c.bam] == 0 {
        // A wrong counter is only logged; the counter invariant rules it out.
      } else {
        pipesEnabled[c.bam] := pipesEnabled[c.bam] - 1;
      }
      ret := 0;
    }

    /** wait_for_prod_granted: request the BAM's producer resource; an
        immediate grant is recorded, a pending one is left to
        usb_prod_notify_cb, and the wait for it is not modelled. */
    method WaitForProdGranted(bam: BamId, requestRet: int)
      requires Valid()
      modifies this, prodState
      ensures hw == old(hw) + [ProdRequested(bam)]
      ensures prodState[..] == if requestRet == 0 then old(prodState[..])[bam := Granted] else old(prodState[..])
      ensures Gate() == old(Gate())
    {
      hw := hw + [ProdRequested(bam)];
      if requestRet == 0 {
        prodState[bam] := Granted;
      }
    }

    /** wait_for_prod_release: release the BAM's producer resource; an
        immediate release is recorded, a pending one is left to
        usb_prod_notify_cb. */
    method WaitForProdRelease(bam: BamId, releaseRet: int)
      requires Valid()
      modifies this, prodState
      ensures hw == old(hw) + [ProdReleaseRequested(bam)]
      ensures prodState[..] == if releaseRet == 0 then old(prodState[..])[bam := Released] else old(prodState[..])
      ensures Gate() == old(Gate())
    {
      hw := hw + [ProdReleaseRequested(bam)];
      if releaseRet == 0 {
        prodState[bam] := Released;
      }
    }

    /** usb_prod_notify_cb: the resource manager reports the producer
        granted or released; other events are ignored. */
    method ProdNotifyCb(bam: BamId, ev: RmEvent)
      requires Valid()
      modifies prodState
      ensures prodState[..] == if ev.OtherEvent? then old(prodState[..]) else old(prodState[..])[bam := ev]
    {
      match ev {
        case Granted => prodState[bam] := Granted;
        case Released => prodState[bam] := Released;
        case OtherEvent(_) =>
      }
    }

    /** cons_request_resource: record the consumer granted; the grant is
        immediate exactly when the BAM has an enabled pipe. */
    method ConsRequestResource(bam: BamId) returns (ret: int)
      requires Valid()
      modifies consState
      ensures consState[..] == old(consState[..])[bam := Granted]
      ensures ret == 0 || ret == -EINPROGRESS
      ensures ret == 0 <==> exists i :: 0 <= i < table.Length && table[i].enabled && table[i].bam == bam
    {
      consState[bam] := Granted;
      CountEnabledPositive(table[..], bam);
      if pipesEnabled[bam] != 0 {
        return 0;
      }
      return -EINPROGRESS;
    }

    /** cons_release_resource: record the consumer released; the release
        is immediate exactly when the BAM has no enabled pipe. */
    method ConsReleaseResource(bam: BamId) returns (ret: int)
      requires Valid()
      modifies consState
      ensures consState[..] == old(consState[..])[bam := Released]
      ensures ret == 0 || ret == -EINPROGRESS
      ensures ret == 0 <==> forall i :: 0 <= i < table.Length ==> !(table[i].enabled && table[i].bam == bam)
    {
      consState[bam] := Released;
      CountEnabledPositive(table[..], bam);
      if pipesEnabled[bam] == 0 {
        return 0;
      }
      return -EINPROGRESS;
    }

    /** usb_bam_connect_ipa. A missing parameter block or an index outside
        the table is rejected; an HSUSB connection starts the low-power
        handshake even when it is already enabled, which returns 0. The
        rest is ConnectIpaPipe. */
    method ConnectIpa(p: Option<IpaParams>, prodRequestRet: int, o: IpaOracle) returns (ret: int, p': Option<IpaParams>)
      requires Valid()
      modifies this, table, pipesEnabled, prodState, spsPipes
      ensures Valid()
      ensures p.None? || IpaIndex(p.value) >= table.Length ==>
        ret == -EINVAL && p' == p && table[..] == old(table[..]) && pipesEnabled[..] == old(pipesEnabled[..]) &&
        hw == old(hw) && Gate() == old(Gate()) && spsPipes[..] == old(spsPipes[..])
      ensures p.Some? && IpaIndex(p.value) < table.Length ==>
        var q := p.value;
        var idx := IpaIndex(q);
        var c := old(table[idx]);
        Gate() == (if c.bam == HsUsbBam then LpmGate(false, true) else old(Gate())) &&
        (c.enabled ==>
          ret == 0 && p' == p && table[..] == old(table[..]) && pipesEnabled[..] == old(pipesEnabled[..]) && hw == old(hw) &&
          spsPipes[..] == old(spsPipes[..])) &&
        (!c.enabled ==>
          IpaConnected(c, idx, q, o, ret, p', old(table[..]), table[..], old(pipesEnabled[c.bam]), pipesEnabled[c.bam]) &&
          SlotsAfterIpaConnect(old(spsPipes[..]), spsPipes[..], idx, ConnectPipeIpa(c, o)) &&
          hw == old(hw) + IpaConnectCalls(c, idx, q, o, resetOnConnect[c.bam], old(pipesEnabled[c.bam]), timerMs[c.bam],
            TimerReachable(c.bam), consState[c.bam]) &&
          prodState[..] == (if q.dir == UsbToPeer && prodRequestRet == 0 then old(prodState[..])[c.bam := Granted] else old(prodState[..])))
    {
      p' := p;
      if p.None? {
        return -EINVAL, p';
      }
      var q := p.value;
      var idx := IpaIndex(q);
      if idx >= table.Length {
        return -EINVAL, p';
      }
      var c := table[idx];
      if c.bam == HsUsbBam {
        schedLpm := false;
        lpmWaitHandshake := true;
      }
      if c.enabled {
        return 0, p';
      }
      ret, p' := ConnectIpaPipe(idx, q, prodRequestRet, o);
    }

    /** The part of usb_bam_connect_ipa after the checks, for a connection
        that is not enabled: reset the BAM before its first pipe if it
        asks for it, request the producer resource for an outgoing pipe,
        and run connect_pipe_ipa. On success the first pipe of a BAM with
        a timer and an inactivity callback arms the timer, the pipe is
        enabled and counted, and an incoming pipe whose consumer is
        already granted completes the grant. */
    method ConnectIpaPipe(idx: nat, q: IpaParams, prodRequestRet: int, o: IpaOracle) returns (ret: int, p': Option<IpaParams>)
      requires Valid() && idx < table.Length && idx == IpaIndex(q) && !table[idx].enabled
      modifies this, table, pipesEnabled, prodState, spsPipes
      ensures Valid() && Gate() == old(Gate())
      ensures var c := old(table[idx]);
        IpaConnected(c, idx, q, o, ret, p', old(table[..]), table[..], old(pipesEnabled[c.bam]), pipesEnabled[c.bam])
      ensures SlotsAfterIpaConnect(old(spsPipes[..]), spsPipes[..], idx, ConnectPipeIpa(old(table[idx]), o))
      ensures var c := old(table[idx]);
        hw == old(hw) + IpaConnectCalls(c, idx, q, o, resetOnConnect[c.bam], old(pipesEnabled[c.bam]), timerMs[c.bam],
          TimerReachable(c.bam), consState[c.bam])
      ensures ret == 0 && IsFirstOfBam(table[..], idx, table[idx].bam) ==> TimerReachable(table[idx].bam)
      ensures var c := old(table[idx]);
        prodState[..] == (if q.dir == UsbToPeer && prodRequestRet == 0 then old(prodState[..])[c.bam := Granted] else old(prodState[..]))
    {
      var c := table[idx];
      var bam := c.bam;
      ghost var n0, t0, hw0 := pipesEnabled[bam], table[..], hw;
      ghost var ms, cons, reset := timerMs[bam], consState[bam], resetOnConnect[bam];
      var out, c1 := BeginIpaConnect(idx, q, prodRequestRet, o);
      ghost var pre := (if reset && n0 == 0 then [DeviceReset(bam)] else []) +
        (if q.dir == UsbToPeer then [ProdRequested(bam)] else []) + [Backend(idx, out.actions)];
      assert hw == hw0 + pre;
      ret, p' := FinishIpaConnect(idx, q, o, out, c1);
      assert t0[idx := c1][idx := c1.(enabled := true, fifoPhysSet := true)] == t0[idx := c1.(enabled := true, fifoPhysSet := true)];
      assert IpaConnected(c, idx, q, o, ret, p', t0, table[..], n0, pipesEnabled[bam]);
      ghost var reach := TimerReachable(bam);
      ghost var tail := if out.ret == 0 then IpaEnableCalls(bam, n0, ms, c1.hasInactivityCb, reach, q.dir, cons) else [];
      assert hw == (hw0 + pre) + tail;
      IpaConnectCallsSplit(c, idx, q, o, reset, n0, ms, reach, cons);
      AppendAssoc(hw0, pre, tail);
      assert hw == hw0 + IpaConnectCalls(c, idx, q, o, reset, n0, ms, reach, cons);
    }

    /** The tail of usb_bam_connect_ipa once connect_pipe_ipa has answered
        `out` and the connection `c1` it set up is stored at `idx`: hand
        the IPA client handle back, and on success enable the pipe. */
    method FinishIpaConnect(idx: nat, q: IpaParams, o: IpaOracle, out: IpaOutcome, c1: PipeConnection)
      returns (ret: int, p': Option<IpaParams>)
      requires Valid() && idx < table.Length && table[idx] == c1 && !c1.enabled
      requires out.ret == 0 ==> out.peerIndex.Some? && spsPipes[idx]
      modifies this, table, pipesEnabled
      ensures Valid() && Gate() == old(Gate())
      ensures ret == out.ret
      ensures ret == 0 ==>
        p' == Some(if q.dir == UsbToPeer then q.(consHandle := o.clientHandle) else q.(prodHandle := o.clientHandle)) &&
        table[..] == old(table[..])[idx := c1.(enabled := true, fifoPhysSet := true)] &&
        pipesEnabled[c1.bam] == old(pipesEnabled[c1.bam]) + 1 &&
        hw == old(hw) + IpaEnableCalls(c1.bam, old(pipesEnabled[c1.bam]), timerMs[c1.bam], c1.hasInactivityCb,
          TimerReachable(c1.bam), q.dir, consState[c1.bam])
      ensures ret != 0 ==>
        table[..] == old(table[..]) && pipesEnabled[c1.bam] == old(pipesEnabled[c1.bam]) && hw == old(hw)
    {
      p' := Some(q);
      if out.peerIndex.Some? {
        p' := if q.dir == UsbToPeer then Some(q.(consHandle := o.clientHandle)) else Some(q.(prodHandle := o.clientHandle));
      }
      if out.ret != 0 {
        return out.ret, p';
      }
      EnableIpaPipe(idx, c1, q.dir);
      ret := 0;
    }

    /** The first part of usb_bam_connect_ipa for the connection at `idx`,
        which is not enabled: reset the BAM before its first pipe if it
        asks for it, wait for the producer grant of an outgoing pipe, run
        connect_pipe_ipa and store what it set in the connection. */
    method BeginIpaConnect(idx: nat, q: IpaParams, prodRequestRet: int, o: IpaOracle) returns (out: IpaOutcome, c1: PipeConnection)
      requires Valid() && idx < table.Length && !table[idx].enabled
      modifies this, table, prodState, spsPipes
      ensures Valid() && Gate() == old(Gate())
      ensures SlotsAfterIpaConnect(old(spsPipes[..]), spsPipes[..], idx, out)
      ensures var c := old(table[idx]);
        out == ConnectPipeIpa(c, o) && c1 == ApplyIpaOutcome(c, q.dir, q.hasActivityCb, q.hasInactivityCb, out) &&
        table[..] == old(table[..])[idx := c1] && pipesEnabled[c.bam] == old(pipesEnabled[c.bam])
      ensures var c := old(table[idx]);
        hw == old(hw) + (if resetOnConnect[c.bam] && pipesEnabled[c.bam] == 0 then [DeviceReset(c.bam)] else []) +
          (if q.dir == UsbToPeer then [ProdRequested(c.bam)] else []) + [Backend(idx, out.actions)]
      ensures var c := old(table[idx]);
        prodState[..] == (if q.dir == UsbToPeer && prodRequestRet == 0 then old(prodState[..])[c.bam := Granted] else old(prodState[..]))
    {
      var c := table[idx];
      var bam := c.bam;
      hw := hw + ResetBeforeConnect(bam, pipesEnabled[bam]);
      if q.dir == UsbToPeer {
        WaitForProdGranted(bam, prodRequestRet);
      }
      out, c1 := RunConnectPipeIpa(idx, q, o);
    }

    /** connect_pipe_ipa on the connection at `idx`, which is not enabled:
        record its calls, store the endpoint it allocated in the SPS pipe
        slot and the callbacks and IPA endpoint it set in the connection. */
    method RunConnectPipeIpa(idx: nat, q: IpaParams, o: IpaOracle) returns (out: IpaOutcome, c1: PipeConnection)
      requires Valid() && idx < table.Length && !table[idx].enabled
      modifies this, table, spsPipes
      ensures Valid() && Gate() == old(Gate())
      ensures SlotsAfterIpaConnect(old(spsPipes[..]), spsPipes[..], idx, out)
      ensures var c := old(table[idx]);
        out == ConnectPipeIpa(c, o) && c1 == ApplyIpaOutcome(c, q.dir, q.hasActivityCb, q.hasInactivityCb, out) &&
        table[..] == old(table[..])[idx := c1]
      ensures hw == old(hw) + [Backend(idx, out.actions)]
    {
      var c := table[idx];
      out := ConnectPipeIpa(c, o);
      if out.endpoint.Some? {
        StoreEndpoint(idx, out.endpoint.value);
      }
      c1 := ApplyIpaOutcome(c, q.dir, q.hasActivityCb, q.hasInactivityCb, out);
      hw := hw + [Backend(idx, out.actions)];
      SetEntry(idx, c1);
    }

    /** The success tail of usb_bam_connect_ipa for the connection `c1`
        just stored at `idx`: arm the timer of a BAM whose first pipe this
        is, enable and count the pipe, and complete an early consumer
        grant for an incoming pipe. */
    method EnableIpaPipe(idx: nat, c1: PipeConnection, dir: Dir)
      requires Valid() && idx < table.Length && table[idx] == c1 && !c1.enabled && spsPipes[idx]
      modifies this, table, pipesEnabled
      ensures Valid() && Gate() == old(Gate())
      ensures table[..] == old(table[..])[idx := c1.(enabled := true, fifoPhysSet := true)]
      ensures pipesEnabled[c1.bam] == old(pipesEnabled[c1.bam]) + 1
      ensures hw == old(hw) + IpaEnableCalls(c1.bam, old(pipesEnabled[c1.bam]), timerMs[c1.bam], c1.hasInactivityCb,
        TimerReachable(c1.bam), dir, consState[c1.bam])
    {
      var bam := c1.bam;
      ghost var n0, t0, hw0 := pipesEnabled[bam], table[..], hw;
      ghost var reach := TimerReachable(bam);
      ArmTimerOnFirstEnable(bam, c1.hasInactivityCb);
      ghost var timerPart := if n0 == 0 && timerMs[bam] != 0 && c1.hasInactivityCb && reach then [TimerArmed(bam, timerMs[bam])] else [];
      EnableEntry(idx);
      FirstPipeHasHandleUpdate(t0, idx, c1.(enabled := true, fifoPhysSet := true), spsPipes[..], bam);
      if dir == PeerToUsb && consState[bam] == Granted {
        hw := hw + [NotifyConsGranted(bam)];
      }
      ghost var grantPart := if dir == PeerToUsb && consState[bam] == Granted then [NotifyConsGranted(bam)] else [];
      assert hw == (hw0 + timerPart) + grantPart;
      AppendAssoc(hw0, timerPart, grantPart);
    }

    /** The timer step of usb_bam_connect_ipa's success tail: a BAM with no
        enabled pipe yet, a timeout and an inactivity callback has its
        timer set. */
    method ArmTimerOnFirstEnable(bam: BamId, hasInactivityCb: bool)
      requires Valid()
      modifies this
      ensures hw == old(hw) + (if pipesEnabled[bam] == 0 && timerMs[bam] != 0 && hasInactivityCb && TimerReachable(bam)
        then [TimerArmed(bam, timerMs[bam])] else [])
      ensures Gate() == old(Gate())
    {
      if pipesEnabled[bam] == 0 && timerMs[bam] != 0 && hasInactivityCb {
        SetInactivityTimer(bam);
      }
    }

    /** usb_bam_start_lpm: end the handshake wait and suspend the
        controller if a low-power request was deferred. */
    method StartLpm()
      modifies this
      ensures Gate() == StartLpmStep(old(Gate())).0
      ensures hw == old(hw) + (if StartLpmStep(old(Gate())).1 then [LpmSuspend] else [])
    {
      lpmWaitHandshake := false;
      if schedLpm {
        hw := hw + [LpmSuspend];
      }
    }

    /** msm_bam_lpm_ok: whether the controller may enter low power now. */
    method LpmOk() returns (ok: bool)
      modifies this
      ensures (Gate(), ok) == LpmOkStep(old(Gate()))
      ensures hw == old(hw)
    {
      if lpmWaitHandshake {
        schedLpm := true;
        return false;
      }
      return true;
    }

    /** usb_bam_disconnect_ipa. With neither client handle it returns
        -EINVAL. For the producer handle: release the producer, then
        DisconnectIpaPipe on the destination pipe. For the consumer handle:
        DisconnectIpaPipe on the source pipe (the wait for the consumer
        release before it is not modelled), then complete a consumer
        release already recorded and end the low-power handshake. A failed
        IPA disconnect returns its code at once. Each pipe that comes down
        is disabled with its physical FIFO base cleared; nothing else in
        the table changes. */
    method DisconnectIpa(p: IpaParams, releaseRet: int, prodDisconnectRet: int, consDisconnectRet: int) returns (ret: int)
      requires Valid()
      requires p.prodHandle != 0 ==> p.dstIdx < table.Length
      requires p.consHandle != 0 ==> p.srcIdx < table.Length
      modifies this, table, pipesEnabled, prodState
      ensures Valid()
      ensures p.prodHandle == 0 && p.consHandle == 0 ==> ret == -EINVAL && hw == old(hw)
      ensures p.prodHandle != 0 || p.consHandle != 0 ==>
        ret == (if p.prodHandle != 0 && prodDisconnectRet != 0 then prodDisconnectRet
                else if p.consHandle != 0 then consDisconnectRet else 0)
      ensures p.prodHandle != 0 || p.consHandle != 0 ==>
        hw == old(hw) + DisconnectIpaCalls(p, old(table[..]), prodDisconnectRet, consDisconnectRet, old(consState[..]), old(schedLpm))
      ensures var prodDown := p.prodHandle != 0 && prodDisconnectRet == 0;
        var consDown := p.consHandle != 0 && ret == 0;
        forall i :: 0 <= i < table.Length ==>
          table[i] == if (prodDown && i == p.dstIdx) || (consDown && i == p.srcIdx)
            then old(table[i]).(enabled := false, fifoPhysSet := false) else old(table[i])
      ensures prodState[..] == if p.prodHandle != 0 && releaseRet == 0
        then old(prodState[..])[old(table[p.dstIdx]).bam := Released] else old(prodState[..])
      ensures Gate() == if p.consHandle != 0 && ret == 0 then StartLpmStep(old(Gate())).0 else old(Gate())
    {
      if p.prodHandle == 0 && p.consHandle == 0 {
        return -EINVAL;
      }
      ghost var t0, hw0, cons0, sched0 := table[..], hw, consState[..], schedLpm;
      ghost var prodCalls := if p.prodHandle == 0 then []
        else [ProdReleaseRequested(t0[p.dstIdx].bam)] + IpaPipeDisconnectCalls(p.dstIdx, p.prodHandle, prodDisconnectRet, t0[p.dstIdx]);
      ret := 0;
      if p.prodHandle != 0 {
        ret := DisconnectIpaProducer(p.dstIdx, p.prodHandle, releaseRet, prodDisconnectRet);
        if ret != 0 {
          assert DisconnectIpaCalls(p, t0, prodDisconnectRet, consDisconnectRet, cons0, sched0) == prodCalls + [] == prodCalls;
          return ret;
        }
      }
      assert hw == hw0 + prodCalls;
      if p.consHandle != 0 {
        var c := t0[p.srcIdx];
        var c' := if p.prodHandle != 0 && p.dstIdx == p.srcIdx then c.(enabled := false, fifoPhysSet := false) else c;
        assert table[p.srcIdx] == c';
        ghost var consCalls := ConsumerDisconnectCalls(p.srcIdx, p.consHandle, consDisconnectRet, c', cons0[c.bam], sched0);
        assert DisconnectIpaCalls(p, t0, prodDisconnectRet, consDisconnectRet, cons0, sched0) == prodCalls + consCalls;
        ret := DisconnectIpaConsumer(p.srcIdx, p.consHandle, consDisconnectRet);
        assert hw == hw0 + prodCalls + consCalls;
        AppendAssoc(hw0, prodCalls, consCalls);
      } else {
        assert DisconnectIpaCalls(p, t0, prodDisconnectRet, consDisconnectRet, cons0, sched0) == prodCalls + [] == prodCalls;
      }
    }

    /** The producer half of usb_bam_disconnect_ipa: release the BAM's
        producer, then DisconnectIpaPipe on the destination pipe. */
    method DisconnectIpaProducer(idx: nat, handle: nat, releaseRet: int, disconnectRet: int) returns (ret: int)
      requires Valid() && idx < table.Length
      modifies this, table, pipesEnabled, prodState
      ensures Valid() && Gate() == old(Gate())
      ensures ret == disconnectRet
      ensures ret != 0 ==> table[..] == old(table[..])
      ensures ret == 0 ==> table[..] == old(table[..])[idx := old(table[idx]).(enabled := false, fifoPhysSet := false)]
      ensures hw == old(hw) + [ProdReleaseRequested(old(table[idx]).bam)] + IpaPipeDisconnectCalls(idx, handle, disconnectRet, old(table[idx]))
      ensures prodState[..] == if releaseRet == 0 then old(prodState[..])[old(table[idx]).bam := Released] else old(prodState[..])
    {
      WaitForProdRelease(table[idx].bam, releaseRet);
      ret := DisconnectIpaPipe(idx, handle, disconnectRet);
    }

    /** The consumer half of usb_bam_disconnect_ipa: DisconnectIpaPipe on
        the source pipe; if that succeeds, complete a consumer release
        already recorded and end the low-power handshake. */
    method DisconnectIpaConsumer(idx: nat, handle: nat, disconnectRet: int) returns (ret: int)
      requires Valid() && idx < table.Length
      modifies this, table, pipesEnabled
      ensures Valid()
      ensures ret == disconnectRet
      ensures ret == 0 ==>
        Gate() == StartLpmStep(old(Gate())).0 &&
        table[..] == old(table[..])[idx := old(table[idx]).(enabled := false, fifoPhysSet := false)]
      ensures ret != 0 ==> Gate() == old(Gate()) && table[..] == old(table[..])
      ensures hw == old(hw) + ConsumerDisconnectCalls(idx, handle, disconnectRet, old(table[idx]), consState[old(table[idx]).bam],
        old(schedLpm))
    {
      var bam := table[idx].bam;
      ret := DisconnectIpaPipe(idx, handle, disconnectRet);
      if ret != 0 {
        return ret;
      }
      if consState[bam] == Released {
        hw := hw + [NotifyConsReleased(bam)];
      }
      StartLpm();
    }

    /** One half of usb_bam_disconnect_ipa: disconnect the IPA client
        `handle`; if that succeeds, clear the pipe's physical FIFO base, so
        that memory IPA owns is not freed, and disconnect the pipe. The
        result is the IPA disconnect's code. */
    method DisconnectIpaPipe(idx: nat, handle: nat, disconnectRet: int) returns (ret: int)
      requires Valid() && idx < table.Length
      modifies this, table, pipesEnabled
      ensures Valid() && Gate() == old(Gate())
      ensures ret == disconnectRet
      ensures ret != 0 ==> table[..] == old(table[..])
      ensures ret == 0 ==> table[..] == old(table[..])[idx := old(table[idx]).(enabled := false, fifoPhysSet := false)]
      ensures hw == old(hw) + IpaPipeDisconnectCalls(idx, handle, disconnectRet, old(table[idx]))
    {
      hw := hw + [IpaClientDisconnected(handle)];
      if disconnectRet != 0 {
        return disconnectRet;
      }
      SetEntry(idx, table[idx].(fifoPhysSet := false));
      DisconnectFreesCoherentOnlyWhenHeld(table[idx].memType, false);
      ret := DisconnectPipe(idx);
    }

    /** usb_bam_sps_events for the BAM timer interrupt: the BAM named by
        the interrupt's cookie becomes inactive, and its first pipe gets
        the inactivity event, with its inactivity callback, queued. Other
        SPS events are only logged. */
    method SpsEvents(timerIrq: bool, user: string)
      requires Valid() && 0 <= BamOfCoreName(user)
      modifies table, inactive
      ensures Valid()
      ensures var bam := BamOfCoreName(user);
        if !timerIrq then table[..] == old(table[..]) && inactive[..] == old(inactive[..])
        else
          inactive[..] == old(inactive[..])[bam := true] &&
          forall i :: 0 <= i < table.Length ==>
            table[i] == if IsFirstOfBam(old(table[..]), i, bam)
              then old(table[i]).(event := EventInfo(Inactivity, old(table[i]).hasInactivityCb), workQueued := true)
              else old(table[i])
    {
      if !timerIrq {
        return;
      }
      var bam: BamId := BamOfCoreName(user);
      inactive[bam] := true;
      var i := FirstPipeOfBam(bam);
      if i >= 0 {
        var c := table[i];
        SetEntry(i, c.(event := EventInfo(Inactivity, c.hasInactivityCb), workQueued := true));
      }
    }

    /** usb_bam_wake_cb for pipe `idx`: queue its work as WakeFilter
        decides and update the BAM's inactivity flag. */
    method WakeCb(idx: nat)
      requires Valid() && idx < table.Length
      modifies table, inactive
      ensures Valid()
      ensures var c := old(table[idx]);
        var (queue, nowInactive) := WakeFilter(c.event.kind, old(inactive[c.bam]));
        inactive[..] == old(inactive[..])[c.bam := nowInactive] &&
        table[..] == old(table[..])[idx := if queue then c.(workQueued := true) else c]
    {
      var c := table[idx];
      if c.event.kind == WakeupPipe {
        SetEntry(idx, c.(workQueued := true));
      } else if c.event.kind == Wakeup && inactive[c.bam] {
        inactive[c.bam] := false;
        SetEntry(idx, c.(workQueued := true));
      }
    }

    /** __usb_bam_register_wake_cb: reject an index outside the table with
        -EINVAL (the corrected guard, see IndexRejected); otherwise arm the
        pipe's event slot for a per-pipe or global wake with the given
        callback, register it, and on success set the pipe's options;
        the result is the first failing call's code, or 0. */
    method RegisterWakeCb(idx: nat, hasCallback: bool, perPipe: bool, registerRet: int, setConfigRet: int) returns (ret: int)
      requires Valid()
      modifies this, table
      ensures Valid()
      ensures IndexRejected(idx, table.Length) ==>
        ret == -EINVAL && table[..] == old(table[..]) && hw == old(hw)
      ensures !IndexRejected(idx, table.Length) ==>
        table[..] == old(table[..])[idx := old(table[idx]).(event := EventInfo(if perPipe then WakeupPipe else Wakeup, hasCallback))] &&
        hw == old(hw) + RegisterCalls(idx, hasCallback, registerRet) &&
        ret == (if registerRet != 0 then registerRet else setConfigRet)
      ensures Gate() == old(Gate())
    {
      if IndexRejected(idx, table.Length) {
        return -EINVAL;
      }
      var c := table[idx];
      SetEntry(idx, c.(event := EventInfo(if perPipe then WakeupPipe else Wakeup, hasCallback)));
      hw := hw + [WakeEventRegistered(idx, hasCallback)];
      if registerRet != 0 {
        return registerRet;
      }
      hw := hw + [WakeOptionsSet(idx, hasCallback)];
      return setConfigRet;
    }

    /** usb_bam_work, one run of pipe `idx`'s queued work item. A wake runs
        the callback and restarts the BAM's timer if it has one. An
        inactivity re-arms a global wake on every enabled inbound pipe of
        the BAM (`registerRets` holds each registration's answer), then
        runs the inactivity callback saved before the re-arming. */
    method Work(idx: nat, registerRets: seq<int>)
      requires Valid() && idx < table.Length && |registerRets| == table.Length
      modifies this, table
      ensures Valid()
      ensures var c := old(table[idx]);
        var t0 := old(table[..])[idx := c.(workQueued := false)];
        match c.event.kind
        case Wakeup =>
          table[..] == t0 &&
          hw == old(hw) + [CallbackRun(idx, Wakeup)] + (if timerMs[c.bam] != 0 && TimerReachable(c.bam) then [TimerArmed(c.bam, timerMs[c.bam])] else [])
        case WakeupPipe =>
          table[..] == t0 &&
          hw == old(hw) + [CallbackRun(idx, WakeupPipe)] + (if timerMs[c.bam] != 0 && TimerReachable(c.bam) then [TimerArmed(c.bam, timerMs[c.bam])] else [])
        case Inactivity =>
          (forall i :: 0 <= i < table.Length ==> table[i] == Rearmed(t0[i], c.bam)) &&
          hw == old(hw) + RearmCalls(t0, c.bam, registerRets, table.Length) +
            (if c.event.hasCallback then [CallbackRun(idx, Inactivity)] else [])
        case NoEvent =>
          table[..] == t0 && hw == old(hw)
      ensures Gate() == old(Gate())
    {
      var c := table[idx];
      SetEntry(idx, c.(workQueued := false));
      match c.event.kind {
        case Wakeup =>
          assert table[idx].bam == c.bam;
          hw := hw + [CallbackRun(idx, Wakeup)];
          if timerMs[c.bam] != 0 {
            SetInactivityTimer(c.bam);
          }
        case WakeupPipe =>
          assert table[idx].bam == c.bam;
          hw := hw + [CallbackRun(idx, WakeupPipe)];
          if timerMs[c.bam] != 0 {
            SetInactivityTimer(c.bam);
          }
        case Inactivity =>
          var hasCallback := c.event.hasCallback;
          RearmWakes(c.bam, registerRets);
          if hasCallback {
            hw := hw + [CallbackRun(idx, Inactivity)];
          }
        case NoEvent =>
      }
    }

    /** The inactivity branch of usb_bam_work: re-arm a global wake on
        every enabled inbound pipe of `bam`, in table order. */
    method RearmWakes(bam: BamId, registerRets: seq<int>)
      requires Valid() && |registerRets| == table.Length
      modifies this, table
      ensures Valid() && Gate() == old(Gate())
      ensures forall i :: 0 <= i < table.Length ==> table[i] == Rearmed(old(table[i]), bam)
      ensures hw == old(hw) + RearmCalls(old(table[..]), bam, registerRets, table.Length)
    {
      ghost var t0 := table[..];
      ghost var hw0 := hw;
      var i := 0;
      while i < table.Length
        invariant 0 <= i <= table.Length
        invariant Valid() && Gate() == old(Gate())
        invariant forall j :: 0 <= j < i ==> table[j] == Rearmed(t0[j], bam)
        invariant forall j :: i <= j < table.Length ==> table[j] == t0[j]
        invariant hw == hw0 + RearmCalls(t0, bam, registerRets, i)
      {
        if table[i].bam == bam && table[i].dir == PeerToUsb && table[i].enabled {
          var _ := RegisterWakeCb(i, table[i].hasActivityCb, false, registerRets[i], 0);
        }
        i := i + 1;
      }
    }

    /** The write half of the inactivity_timer sysfs node for one parsed
        entry: store the BAM's timeout and apply it at once if the BAM has
        enabled pipes and its first connection has an SPS pipe handle,
        which it has whenever it is enabled. */
    method StoreInactivityTimer(bam: BamId, ms: int)
      requires Valid()
      modifies this, timerMs
      ensures timerMs[..] == old(timerMs[..])[bam := ms]
      ensures pipesEnabled[bam] > 0 && TimerReachable(bam) ==> hw == old(hw) + [TimerArmed(bam, ms)]
      ensures pipesEnabled[bam] == 0 || !TimerReachable(bam) ==> hw == old(hw)
      ensures forall i :: IsFirstOfBam(table[..], i, bam) && table[i].enabled ==> hw == old(hw) + [TimerArmed(bam, ms)]
      ensures Gate() == old(Gate())
    {
      timerMs[bam] := ms;
      CountEnabledPositive(table[..], bam);
      if pipesEnabled[bam] > 0 {
        SetInactivityTimer(bam);
      }
    }

    /** usb_bam_get_connection_idx: the lowest index of a connection with
        the core's BAM, the peer, the direction and the pipe number;
        -EINVAL when the core name names no BAM, -ENODEV when none
        matches. */
    method GetConnectionIdx(coreName: string, peer: nat, dir: Dir, num: nat) returns (r: int)
      ensures BamOfCoreName(coreName) < 0 ==> r == -EINVAL
      ensures BamOfCoreName(coreName) >= 0 ==>
        var bam: BamId := BamOfCoreName(coreName);
        (r == -ENODEV && forall i :: 0 <= i < table.Length ==> !Matches(table[i], bam, peer, dir, num)) ||
        (0 <= r < table.Length && Matches(table[r], bam, peer, dir, num) &&
          forall j :: 0 <= j < r ==> !Matches(table[j], bam, peer, dir, num))
    {
      var bamType := BamOfCoreName(coreName);
      if bamType < 0 {
        return -EINVAL;
      }
      var bam: BamId := bamType;
      var i := 0;
      while i < table.Length
        invariant 0 <= i <= table.Length
        invariant forall j :: 0 <= j < i ==> !Matches(table[j], bam, peer, dir, num)
      {
        if table[i].bam == bam && table[i].peer == peer && table[i].dir == dir && table[i].pipeNum == num {
          return i;
        }
        i := i + 1;
      }
      return -ENODEV;
    }

    /** usb_bam_a2_reset, with the reset guard as evidently intended:
        disconnect every enabled pipe whose name contains "a2", reset the
        BAM of the last one (if any), then reconnect each of them through
        usb_bam_connect with `oracles[i]`. The result is the code of the
        last reconnect that failed, or 0. */
    method A2Reset(oracles: seq<ConnectOracle>) returns (ret: int)
      requires Valid() && |oracles| == table.Length
      modifies this, table, pipesEnabled, spsPipes
      ensures Valid()
      ensures forall i :: 0 <= i < table.Length ==>
        spsPipes[i] == if IsA2Enabled(old(table[i])) then oracles[i].endpointAllocated else old(spsPipes[i])
      ensures forall i :: 0 <= i < table.Length && !IsA2Enabled(old(table[i])) ==> table[i] == old(table[i])
      ensures forall i :: 0 <= i < table.Length && IsA2Enabled(old(table[i])) ==>
        (table[i].enabled <==> ConnectPipe(old(table[i]).(enabled := false), oracles[i]).ret == 0)
      ensures ret == LastFailure(ReconnectCodes(old(table[..]), oracles), table.Length)
      ensures ret == 0 <==> forall i :: 0 <= i < table.Length && IsA2Enabled(old(table[i])) ==> table[i].enabled
      ensures old(hw) <= hw
      ensures Gate() == old(Gate())
    {
      ghost var t0 := table[..];
      var reconnect := new int[table.Length](_ => -1);
      var lastA2Bam := DisconnectA2Pipes(reconnect);
      var target := A2ResetTarget(lastA2Bam);
      if target.Some? {
        hw := hw + [DeviceReset(target.value)];
      }
      ret := ReconnectA2Pipes(reconnect, oracles, t0);
    }

    /** The first loop of usb_bam_a2_reset: disconnect each enabled "a2"
        pipe and record its USB pipe index in `reconnect`; the other
        entries stay -1. Returns the BAM of the last such pipe, if any. */
    method DisconnectA2Pipes(reconnect: array<int>) returns (lastA2Bam: Option<BamId>)
      requires Valid() && reconnect.Length == table.Length
      requires forall j :: 0 <= j < reconnect.Length ==> reconnect[j] == -1
      modifies this, table, pipesEnabled, reconnect
      ensures Valid() && Gate() == old(Gate()) && old(hw) <= hw
      ensures forall j :: 0 <= j < table.Length ==>
        table[j] == (if IsA2Enabled(old(table[j])) then old(table[j]).(enabled := false) else old(table[j])) &&
        (reconnect[j] != -1 <==> IsA2Enabled(old(table[j])))
      ensures lastA2Bam == LastA2Bam(old(table[..]), table.Length)
      ensures lastA2Bam.Some? <==> exists j :: 0 <= j < table.Length && IsA2Enabled(old(table[j]))
    {
      lastA2Bam := None;
      ghost var t0 := table[..];
      var i := 0;
      while i < table.Length
        invariant 0 <= i <= table.Length
        invariant Valid() && Gate() == old(Gate()) && old(hw) <= hw
        invariant forall j :: 0 <= j < i ==>
          table[j] == (if IsA2Enabled(t0[j]) then t0[j].(enabled := false) else t0[j]) &&
          (reconnect[j] != -1 <==> IsA2Enabled(t0[j]))
        invariant forall j :: i <= j < table.Length ==> table[j] == t0[j] && reconnect[j] == -1
        invariant lastA2Bam == LastA2Bam(t0, i)
      {
        var bam := table[i].bam;
        var isA2 := DisconnectA2Pipe(reconnect, i);
        if isA2 {
          lastA2Bam := Some(bam);
        }
        i := i + 1;
      }
      LastA2BamIsLast(t0, table.Length);
    }

    /** One pass of the first loop of usb_bam_a2_reset over entry `i`:
        an enabled "a2" pipe has its USB pipe index recorded and is
        disconnected; any other entry is left alone. */
    method DisconnectA2Pipe(reconnect: array<int>, i: nat) returns (isA2: bool)
      requires Valid() && i < table.Length == reconnect.Length && reconnect != pipesEnabled
      modifies this, table, pipesEnabled, reconnect
      ensures Valid() && Gate() == old(Gate()) && old(hw) <= hw
      ensures isA2 == IsA2Enabled(old(table[i]))
      ensures table[..] == old(table[..])[i := if isA2 then old(table[i]).(enabled := false) else old(table[i])]
      ensures reconnect[..] == old(reconnect[..])[i := if isA2 then UsbPipeIndex(old(table[i])) else old(reconnect[i])]
    {
      var c := table[i];
      isA2 := StrnStr(c.name, "a2", MaxStrLen) && c.enabled;
      if isA2 {
        reconnect[i] := UsbPipeIndex(c);
        var _ := DisconnectPipe(i);
      }
    }

    /** One pass of the last loop of usb_bam_a2_reset over entry `i`: a
        recorded (disabled) pipe is reconnected through usb_bam_connect,
        whose result is `code`, the code connect_pipe gives for it, and the
        pipe ends enabled exactly when that code is 0; an entry without a
        recorded index (code 0) is left alone. `ret` becomes the code when it
        is non-zero, and stays `prev` otherwise; no other entry changes. */
    method ReconnectA2Pipe(reconnect: array<int>, i: nat, o: ConnectOracle, ghost code: int, prev: int) returns (ret: int)
      requires Valid() && i < table.Length == reconnect.Length
      requires reconnect[i] != -1 ==> !table[i].enabled && code == ConnectPipe(table[i], o).ret
      requires reconnect[i] == -1 ==> code == 0
      modifies this, table, pipesEnabled, spsPipes
      ensures Valid() && Gate() == old(Gate()) && old(hw) <= hw
      ensures ret == if code != 0 then code else prev
      ensures reconnect[i] != -1 ==> (table[i].enabled <==> code == 0) && spsPipes[i] == o.endpointAllocated
      ensures forall j :: 0 <= j < table.Length && (j != i || reconnect[i] == -1) ==>
        table[j] == old(table[j]) && spsPipes[j] == old(spsPipes[j])
    {
      ret := prev;
      if reconnect[i] != -1 {
        var r, pipeIdx := Connect(i, true, o);
        if r != 0 {
          ret := r;
        }
      }
    }

    /** The last loop of usb_bam_a2_reset: reconnect every pipe with a
        recorded index. `t0` is the table before the reset. */
    method ReconnectA2Pipes(reconnect: array<int>, oracles: seq<ConnectOracle>, ghost t0: seq<PipeConnection>) returns (ret: int)
      requires Valid() && reconnect.Length == table.Length == |oracles| == |t0|
      requires forall j :: 0 <= j < table.Length ==>
        table[j] == (if IsA2Enabled(t0[j]) then t0[j].(enabled := false) else t0[j]) &&
        (reconnect[j] != -1 <==> IsA2Enabled(t0[j]))
      modifies this, table, pipesEnabled, spsPipes
      ensures Valid() && Gate() == old(Gate()) && old(hw) <= hw
      ensures forall j :: 0 <= j < table.Length ==>
        spsPipes[j] == if IsA2Enabled(t0[j]) then oracles[j].endpointAllocated else old(spsPipes[j])
      ensures forall j :: 0 <= j < table.Length && !IsA2Enabled(t0[j]) ==> table[j] == t0[j]
      ensures forall j :: 0 <= j < table.Length && IsA2Enabled(t0[j]) ==>
        (table[j].enabled <==> ConnectPipe(t0[j].(enabled := false), oracles[j]).ret == 0)
      ensures ret == LastFailure(ReconnectCodes(t0, oracles), table.Length)
      ensures ret == 0 <==> forall j :: 0 <= j < table.Length && IsA2Enabled(t0[j]) ==> table[j].enabled
    {
      ghost var codes := ReconnectCodes(t0, oracles);
      ret := ReconnectRecorded(reconnect, oracles, codes);
      LastFailureReportsFailure(codes, table.Length);
    }

    /** The reconnect loop itself, given the code each recorded pipe's
        reconnect returns (and 0 for the others): each recorded pipe ends
        enabled iff its code is 0, the others are untouched, and the result
        is the last non-zero code. */
    method ReconnectRecorded(reconnect: array<int>, oracles: seq<ConnectOracle>, ghost codes: seq<int>) returns (ret: int)
      requires Valid() && reconnect.Length == table.Length == |oracles| == |codes|
      requires forall j :: 0 <= j < table.Length && reconnect[j] != -1 ==>
        !table[j].enabled && codes[j] == ConnectPipe(table[j], oracles[j]).ret
      requires forall j :: 0 <= j < table.Length && reconnect[j] == -1 ==> codes[j] == 0
      modifies this, table, pipesEnabled, spsPipes
      ensures Valid() && Gate() == old(Gate()) && old(hw) <= hw
      ensures forall j :: 0 <= j < table.Length ==>
        spsPipes[j] == if reconnect[j] != -1 then oracles[j].endpointAllocated else old(spsPipes[j])
      ensures forall j :: 0 <= j < table.Length && reconnect[j] != -1 ==> (table[j].enabled <==> codes[j] == 0)
      ensures forall j :: 0 <= j < table.Length && reconnect[j] == -1 ==> table[j] == old(table[j])
      ensures ret == LastFailure(codes, table.Length)
    {
      ret := 0;
      ghost var t1 := table[..];
      ghost var s1 := spsPipes[..];
      var i := 0;
      while i < table.Length
        invariant 0 <= i <= table.Length
        invariant Valid() && Gate() == old(Gate()) && old(hw) <= hw
        invariant forall j :: 0 <= j < i && reconnect[j] != -1 ==>
          (table[j].enabled <==> codes[j] == 0) && spsPipes[j] == oracles[j].endpointAllocated
        invariant forall j :: 0 <= j < table.Length && (i <= j || reconnect[j] == -1) ==>
          table[j] == t1[j] && spsPipes[j] == s1[j]
        invariant ret == LastFailure(codes, i)
      {
        assert table[i] == t1[i];
        ret := ReconnectA2Pipe(reconnect, i, oracles[i], codes[i], ret);
        i := i + 1;
      }
    }
  }
}
