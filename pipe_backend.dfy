/** The backend half of a pipe connection: what connect_pipe,
    connect_pipe_ipa and disconnect_pipe ask of the SPS, IPA, clock and
    memory services, and what they return. Every foreign call is an
    answer in an oracle record; each operation yields the list of calls it
    made, so a caller can state that a path made none, or that a failing
    path undid what it had set up. */
module PipeBackend {
  import opened Wrappers
  import opened BamTypes

  /** A call into a foreign service that the pipe code makes. */
  datatype BackendAction =
    | AllocEndpoint
    | FreeEndpoint
    | SpsConnect
    | SpsDisconnect
    | SetupDataFifo
    | SetupDescFifo
    | EnableMemClocks
    | DisableMemClocks
    | WriteRam1(value: int)
    | MapFifos
    | UnmapFifos
    | AllocCoherent
    | FreeCoherent
    | IpaConnect
    | IpaDisconnect

  /** Answers of the services connect_pipe calls. `endpointAllocated` is
      false when sps_alloc_endpoint returns NULL; the clock fields are 0
      for a usable clock and the clock's (negative) error value otherwise;
      the other fields are the calls' return values. */
  datatype ConnectOracle = ConnectOracle(
    endpointAllocated: bool,
    getConfigRet: int,
    srcPhyRet: int,
    dstPhyRet: int,
    dataFifoRet: int,
    descFifoRet: int,
    memClkErr: int,
    memIfaceClkErr: int,
    connectRet: int)

  /** Result of a connect attempt: the return code, the USB-side pipe
      index reported through the caller's out-parameter (if it was written) and
      the foreign calls made, in order. */
  datatype PipeOutcome = PipeOutcome(ret: int, usbPipeIdx: Option<nat>, actions: seq<BackendAction>)

  /** Value written to QSCRATCH_RAM1 to hand the private RAM to the BAM:
      only RAM13 on HSUSB, RAM11 to RAM13 otherwise. */
  function Ram1Value(bam: BamId): int
  {
    if bam == HsUsbBam then 0x4 else 0x7
  }

  /** The USB-side pipe index of a connection: its source pipe when data
      flows from USB to the peer, its destination pipe otherwise. */
  function UsbPipeIndex(c: PipeConnection): nat
  {
    if c.dir == UsbToPeer then c.srcPipeIndex else c.dstPipeIndex
  }

  /** The foreign calls that set up the FIFOs of a connection once the
      endpoint is configured, and the error that stops the set-up (0 when
      it completes). `unknownRet` is what the code returns for a memory
      type it does not know. */
  function MemSetup(c: PipeConnection, o: ConnectOracle, privateClkRet: int, unknownRet: int): (int, seq<BackendAction>)
  {
    match c.memType
    case SpsPipeMem =>
      if o.dataFifoRet != 0 then (o.dataFifoRet, [SetupDataFifo])
      else if o.descFifoRet != 0 then (o.descFifoRet, [SetupDataFifo, SetupDescFifo])
      else (0, [SetupDataFifo, SetupDescFifo])
    case UsbPrivateMem =>
      if o.memClkErr != 0 || o.memIfaceClkErr != 0 then (privateClkRet, [])
      else (0, [EnableMemClocks, WriteRam1(Ram1Value(c.bam)), MapFifos])
    case OciMem => (0, [MapFifos])
    case SystemMem => (0, [AllocCoherent])
    case UnknownMem(_) => (unknownRet, [])
  }

  /** Whether the FIFO set-up of a connection failed. The private-memory
      and unknown-memory cases are decided here and not by the returned
      code, which the code as written may leave at 0 on those paths. */
  predicate MemSetupFailed(c: PipeConnection, o: ConnectOracle)
  {
    match c.memType
    case SpsPipeMem => o.dataFifoRet != 0 || o.descFifoRet != 0
    case UsbPrivateMem => o.memClkErr != 0 || o.memIfaceClkErr != 0
    case OciMem => false
    case SystemMem => false
    case UnknownMem(_) => true
  }

  /** connect_pipe with its rollback, given the code each failed
      private-clock or unknown-memory path returns. */
  function ConnectPipeWith(c: PipeConnection, o: ConnectOracle, privateClkRet: int, unknownRet: int): PipeOutcome
  {
    if !o.endpointAllocated then PipeOutcome(-ENOMEM, None, [])
    else if o.getConfigRet != 0 then PipeOutcome(o.getConfigRet, None, [AllocEndpoint, FreeEndpoint])
    else if o.srcPhyRet != 0 then PipeOutcome(o.srcPhyRet, None, [AllocEndpoint, FreeEndpoint])
    else if o.dstPhyRet != 0 then PipeOutcome(o.dstPhyRet, None, [AllocEndpoint, FreeEndpoint])
    else
      var idx := Some(UsbPipeIndex(c));
      var (memRet, mem) := MemSetup(c, o, privateClkRet, unknownRet);
      if MemSetupFailed(c, o) then PipeOutcome(memRet, idx, [AllocEndpoint] + mem + [FreeEndpoint])
      else if o.connectRet < 0 then
        PipeOutcome(o.connectRet, idx, [AllocEndpoint] + mem + [SpsConnect, SpsDisconnect, FreeEndpoint])
      else PipeOutcome(0, idx, [AllocEndpoint] + mem + [SpsConnect])
  }

  /** connect_pipe as written: a failed private-memory clock returns
      IS_ERR(mem_clk), which is 1 when the memory clock failed and 0 when
      only the interface clock failed; an unknown memory type returns the
      0 left by the last successful call. */
  function ConnectPipeAsWritten(c: PipeConnection, o: ConnectOracle): PipeOutcome
  {
    ConnectPipeWith(c, o, if o.memClkErr != 0 then 1 else 0, 0)
  }

  /** connect_pipe as evidently intended: a failed clock returns that
      clock's error and an unknown memory type returns -EINVAL, so that
      every path that frees the endpoint reports failure. */
  function ConnectPipe(c: PipeConnection, o: ConnectOracle): (r: PipeOutcome)
    ensures !o.endpointAllocated ==> r.ret == -ENOMEM && r.actions == []
    ensures r.ret == 0 <==> SpsConnect in r.actions && FreeEndpoint !in r.actions
    ensures r.ret == 0 ==> r.usbPipeIdx == Some(if c.dir == UsbToPeer then c.srcPipeIndex else c.dstPipeIndex)
    ensures r.ret != 0 && o.endpointAllocated ==> |r.actions| > 0 && r.actions[|r.actions| - 1] == FreeEndpoint
    ensures forall v :: WriteRam1(v) in r.actions ==>
      c.memType == UsbPrivateMem && v == (if c.bam == HsUsbBam then 4 else 7)
  {
    ConnectPipeWith(c, o, if o.memClkErr != 0 then o.memClkErr else o.memIfaceClkErr, -EINVAL)
  }

  /** Both versions agree wherever the memory set-up is not one of the two
      mis-reported paths. */
  lemma ConnectPipeAgrees(c: PipeConnection, o: ConnectOracle)
    requires !(c.memType.UsbPrivateMem? && (o.memClkErr != 0 || o.memIfaceClkErr != 0))
    requires !c.memType.UnknownMem?
    ensures ConnectPipeAsWritten(c, o) == ConnectPipe(c, o)
  {
  }

  /** A connection whose every backend call succeeds. */
  function SamplePipe(mem: MemType): PipeConnection
  {
    PipeConnection("usb-to-a2", HsUsbBam, 0, UsbToPeer, 0, mem, 1, 2,
      false, false, false, EventInfo(NoEvent, false), false, false)
  }

  function AllOk(memIfaceClkErr: int): ConnectOracle
  {
    ConnectOracle(true, 0, 0, 0, 0, 0, 0, memIfaceClkErr, 0)
  }

  /** As written, an unknown memory type and a failed interface clock both
      free the endpoint without connecting and yet report success. */
  lemma ConnectPipeAsWrittenReportsRollbackAsSuccess()
    ensures var r := ConnectPipeAsWritten(SamplePipe(UnknownMem(9)), AllOk(0));
      r.ret == 0 && FreeEndpoint in r.actions && SpsConnect !in r.actions
    ensures var r := ConnectPipeAsWritten(SamplePipe(UsbPrivateMem), AllOk(-2));
      r.ret == 0 && FreeEndpoint in r.actions && SpsConnect !in r.actions
  {
    var r1 := ConnectPipeAsWritten(SamplePipe(UnknownMem(9)), AllOk(0));
    assert r1.actions == [AllocEndpoint, FreeEndpoint];
    var r2 := ConnectPipeAsWritten(SamplePipe(UsbPrivateMem), AllOk(-2));
    assert r2.actions == [AllocEndpoint, FreeEndpoint];
  }

  /** The foreign call that undoes `a`, if `a` acquires something. */
  function Release(a: BackendAction): Option<BackendAction>
  {
    match a
    case AllocEndpoint => Some(FreeEndpoint)
    case SpsConnect => Some(SpsDisconnect)
    case EnableMemClocks => Some(DisableMemClocks)
    case MapFifos => Some(UnmapFifos)
    case AllocCoherent => Some(FreeCoherent)
    case IpaConnect => Some(IpaDisconnect)
    case _ => None
  }

  /** disconnect_pipe: disconnect and free the endpoint, then release the
      FIFO memory by type. `physSet` says the connection's FIFO
      descriptors still hold a physical base; system memory is only freed
      then. */
  function DisconnectPipeActions(mem: MemType, physSet: bool): seq<BackendAction>
  {
    [SpsDisconnect, FreeEndpoint] +
      match mem
      case SystemMem => if physSet then [FreeCoherent] else []
      case UsbPrivateMem => [WriteRam1(0), DisableMemClocks, UnmapFifos]
      case OciMem => [UnmapFifos]
      case SpsPipeMem => []
      case UnknownMem(_) => []
  }

  /** Disconnecting a pipe that connected releases everything its connect
      acquired (system memory only while the physical base is kept), and
      hands the private RAM back. */
  lemma DisconnectUndoesConnect(c: PipeConnection, o: ConnectOracle, a: BackendAction)
    requires ConnectPipe(c, o).ret == 0
    requires a in ConnectPipe(c, o).actions && Release(a).Some?
    requires a == AllocCoherent ==> c.fifoPhysSet
    ensures Release(a).value in DisconnectPipeActions(c.memType, c.fifoPhysSet)
  {
  }

  /** Disconnecting never frees coherent memory once the physical base has
      been cleared, and never touches it for other memory types. */
  lemma DisconnectFreesCoherentOnlyWhenHeld(mem: MemType, physSet: bool)
    ensures FreeCoherent in DisconnectPipeActions(mem, physSet) <==> mem == SystemMem && physSet
    ensures DisconnectPipeActions(mem, physSet)[..2] == [SpsDisconnect, FreeEndpoint]
  {
  }

  /** Answers of the services connect_pipe_ipa calls; `ipaEpIdx` and
      `clientHandle` are the IPA endpoint and client handle ipa_connect
      hands back. */
  datatype IpaOracle = IpaOracle(
    phyRet: int,
    dataFifoRet: int,
    descFifoRet: int,
    ipaConnectRet: int,
    ipaEpIdx: nat,
    clientHandle: nat,
    endpointAllocated: bool,
    getConfigRet: int,
    connectRet: int)

  /** Result of connect_pipe_ipa: the return code, whether the caller's
      activity/inactivity callbacks were stored in the connection, the
      IPA endpoint index written into the connection's peer-side pipe
      index (if it was), whether the handle sps_alloc_endpoint stored in
      the connection's SPS pipe slot is non-NULL (None when the allocation
      was not reached and the slot was left alone), and the foreign calls
      made. */
  datatype IpaOutcome = IpaOutcome(ret: int, callbacksSet: bool, peerIndex: Option<nat>, endpoint: Option<bool>,
    actions: seq<BackendAction>)

  /** connect_pipe_ipa: resolve the USB BAM handle, store the callbacks,
      set up SPS pipe memory if used, connect the IPA end, then allocate,
      configure and connect the SPS end; each failure after a successful
      ipa_connect ends with ipa_disconnect. */
  function ConnectPipeIpa(c: PipeConnection, o: IpaOracle): (r: IpaOutcome)
    ensures r.callbacksSet <==> o.phyRet == 0
    ensures r.ret == 0 <==> SpsConnect in r.actions && IpaDisconnect !in r.actions
    ensures r.ret != 0 && r.endpoint.Some? ==> |r.actions| > 0 && r.actions[|r.actions| - 1] == IpaDisconnect
    ensures r.ret == 0 ==>
      r.actions[0] != IpaDisconnect && IpaConnect in r.actions && AllocEndpoint in r.actions && r.endpoint == Some(true)
    ensures r.peerIndex.Some? ==> r.peerIndex.value == o.ipaEpIdx && o.getConfigRet == 0 && o.endpointAllocated
    ensures r.ret == 0 ==> r.peerIndex == Some(o.ipaEpIdx)
  {
    if o.phyRet != 0 then IpaOutcome(o.phyRet, false, None, None, [])
    else
      var (memRet, mem) :=
        if c.memType != SpsPipeMem then (0, [])
        else if o.dataFifoRet != 0 then (o.dataFifoRet, [SetupDataFifo])
        else if o.descFifoRet != 0 then (o.descFifoRet, [SetupDataFifo, SetupDescFifo])
        else (0, [SetupDataFifo, SetupDescFifo]);
      if memRet != 0 then IpaOutcome(memRet, true, None, None, mem)
      else if o.ipaConnectRet != 0 then IpaOutcome(o.ipaConnectRet, true, None, None, mem + [IpaConnect])
      else if !o.endpointAllocated then IpaOutcome(-ENOMEM, true, None, Some(false), mem + [IpaConnect, IpaDisconnect])
      else if o.getConfigRet != 0 then
        IpaOutcome(o.getConfigRet, true, None, Some(true), mem + [IpaConnect, AllocEndpoint, FreeEndpoint, IpaDisconnect])
      else if o.connectRet < 0 then
        IpaOutcome(o.connectRet, true, Some(o.ipaEpIdx), Some(true),
          mem + [IpaConnect, AllocEndpoint, SpsConnect, SpsDisconnect, FreeEndpoint, IpaDisconnect])
      else IpaOutcome(0, true, Some(o.ipaEpIdx), Some(true), mem + [IpaConnect, AllocEndpoint, SpsConnect])
  }

  /** The endpoint allocation of connect_pipe_ipa is reached exactly when
      the call succeeds or ends by undoing ipa_connect, and it stores what
      sps_alloc_endpoint returned; a failed ipa_connect is the last call
      and is not undone. */
  lemma ConnectPipeIpaAllocation(c: PipeConnection, o: IpaOracle)
    ensures var r := ConnectPipeIpa(c, o);
      (r.endpoint.Some? <==> r.ret == 0 || IpaDisconnect in r.actions) &&
      (r.endpoint.Some? ==> r.endpoint.value == o.endpointAllocated && IpaConnect in r.actions) &&
      (r.ret != 0 && IpaConnect in r.actions && r.endpoint.None? ==>
        r.ret == o.ipaConnectRet && r.actions[|r.actions| - 1] == IpaConnect)
  {
  }

  /** The connection after connect_pipe_ipa in direction `dir`: the
      callbacks are stored once the handle is resolved, and the IPA
      endpoint becomes the destination of an outgoing pipe or the source
      of an incoming one. */
  function ApplyIpaOutcome(c: PipeConnection, dir: Dir, hasActivityCb: bool, hasInactivityCb: bool, r: IpaOutcome): (c': PipeConnection)
    ensures c'.enabled == c.enabled && c'.bam == c.bam && c'.name == c.name && c'.dir == c.dir
    ensures r.peerIndex.Some? && dir == UsbToPeer ==> c'.dstPipeIndex == r.peerIndex.value && c'.srcPipeIndex == c.srcPipeIndex
    ensures r.peerIndex.Some? && dir == PeerToUsb ==> c'.srcPipeIndex == r.peerIndex.value && c'.dstPipeIndex == c.dstPipeIndex
    ensures r.peerIndex.None? ==> c'.srcPipeIndex == c.srcPipeIndex && c'.dstPipeIndex == c.dstPipeIndex
    ensures c'.hasActivityCb == (if r.callbacksSet then hasActivityCb else c.hasActivityCb)
    ensures c'.hasInactivityCb == (if r.callbacksSet then hasInactivityCb else c.hasInactivityCb)
  {
    var c1 := if r.callbacksSet then c.(hasActivityCb := hasActivityCb, hasInactivityCb := hasInactivityCb) else c;
    match r.peerIndex
    case None => c1
    case Some(ep) => if dir == UsbToPeer then c1.(dstPipeIndex := ep) else c1.(srcPipeIndex := ep)
  }
}
