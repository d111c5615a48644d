/** The peer handshake of the USB BAM driver: a four-state machine that
    tells the modem about cable plug and unplug over SMSM and waits for
    its acknowledgement. Client-readiness changes and acknowledgement
    toggles queue one work item; events that arrive while it is queued
    are counted in `pending_work`, and each run of the worker consumes one
    such unit by queueing itself again. */
module PeerHandshake {

  datatype SmState = Init | PlugNotified | PlugAcked | UnplugNotified

  /** peer_handshake_info together with the pending bit of its work item
      and the plug bit last processed by the acknowledgement callback. */
  datatype HandshakeInfo = HandshakeInfo(
    state: SmState,
    clientReady: bool,
    ackReceived: bool,
    pendingWork: nat,
    queued: bool,
    lastPlug: bool)

  /** What one worker run does outside the handshake record. */
  datatype SmEffect = NoEffect | NotifyPlug | NotifyUnplug | RunResetCallback

  const InitialInfo := HandshakeInfo(Init, false, false, 0, false, false)

  /** Events queued and not yet handled: the queued item plus the
      pending units. */
  function Outstanding(h: HandshakeInfo): nat
  {
    h.pendingWork + (if h.queued then 1 else 0)
  }

  /** Nothing is pending unless the work item is queued to consume it. */
  predicate Inv(h: HandshakeInfo)
  {
    h.pendingWork > 0 ==> h.queued
  }

  /** queue_work on the handshake item: it fails while the item is already
      queued, and the caller then counts the event in `pending_work`. */
  function Enqueue(h: HandshakeInfo): (h': HandshakeInfo)
    ensures Outstanding(h') == Outstanding(h) + 1
    ensures h'.queued
    ensures h'.state == h.state && h'.clientReady == h.clientReady && h'.ackReceived == h.ackReceived
  {
    if h.queued then h.(pendingWork := h.pendingWork + 1) else h.(queued := true)
  }

  /** usb_bam_client_ready: a change of readiness is recorded and queues
      the worker; setting the current value does nothing. */
  function ClientReady(h: HandshakeInfo, ready: bool): (h': HandshakeInfo)
    ensures h.clientReady == ready ==> h' == h
    ensures h.clientReady != ready ==> h'.clientReady == ready && Outstanding(h') == Outstanding(h) + 1
    ensures h'.state == h.state && h'.ackReceived == h.ackReceived
  {
    if h.clientReady == ready then h else Enqueue(h.(clientReady := ready))
  }

  /** usb_bam_ack_toggle_cb with the modem's plug bit: a bit equal to the
      last one processed is ignored; otherwise the acknowledgement is
      recorded and the worker queued. */
  function AckToggle(h: HandshakeInfo, plug: bool): (h': HandshakeInfo)
    ensures plug == h.lastPlug ==> h' == h
    ensures plug != h.lastPlug ==> h'.ackReceived && h'.lastPlug == plug && Outstanding(h') == Outstanding(h) + 1
    ensures h'.state == h.state && h'.clientReady == h.clientReady
  {
    if plug == h.lastPlug then h else Enqueue(h.(lastPlug := plug, ackReceived := true))
  }

  /** The state transition of one worker run, and its effect. */
  function Transition(h: HandshakeInfo): (SmState, bool, SmEffect)
  {
    match h.state
    case Init => if h.clientReady then (PlugNotified, h.ackReceived, NotifyPlug) else (Init, h.ackReceived, NoEffect)
    case PlugNotified => if h.ackReceived then (PlugAcked, false, NoEffect) else (PlugNotified, false, NoEffect)
    case PlugAcked => if !h.clientReady then (UnplugNotified, h.ackReceived, NotifyUnplug) else (PlugAcked, h.ackReceived, NoEffect)
    case UnplugNotified =>
      if h.ackReceived then (Init, false, RunResetCallback) else (UnplugNotified, false, NoEffect)
  }

  /** usb_bam_sm_work, one run of the dequeued work item: take at most one
      edge, then consume one pending unit by queueing the item again. */
  function SmWork(h: HandshakeInfo): (HandshakeInfo, SmEffect)
    requires h.queued
  {
    var (s, ack, eff) := Transition(h);
    var h1 := h.(state := s, ackReceived := ack, queued := false);
    if h1.pendingWork > 0 then (h1.(pendingWork := h1.pendingWork - 1, queued := true), eff) else (h1, eff)
  }

  /** An edge of the handshake, with the condition that allows it. */
  predicate LegalEdge(h: HandshakeInfo, s': SmState)
  {
    (h.state == Init && s' == PlugNotified && h.clientReady) ||
    (h.state == PlugNotified && s' == PlugAcked && h.ackReceived) ||
    (h.state == PlugAcked && s' == UnplugNotified && !h.clientReady) ||
    (h.state == UnplugNotified && s' == Init && h.ackReceived)
  }

  /** One worker run stays put or takes exactly the edge the record
      allows; it is the acked edges that clear the acknowledgement, the
      notifying edges that talk to the modem, and the return to Init that
      runs the reset callback. */
  lemma SmWorkTakesLegalEdge(h: HandshakeInfo)
    requires h.queued
    ensures var (h', eff) := SmWork(h);
      (h'.state == h.state || LegalEdge(h, h'.state)) &&
      (LegalEdge(h, Transition(h).0) ==> h'.state == Transition(h).0) &&
      (eff == NotifyPlug <==> h.state == Init && h'.state == PlugNotified) &&
      (eff == NotifyUnplug <==> h.state == PlugAcked && h'.state == UnplugNotified) &&
      (eff == RunResetCallback <==> h.state == UnplugNotified && h'.state == Init) &&
      (h'.state != h.state && (h.state == PlugNotified || h.state == UnplugNotified) ==> !h'.ackReceived) &&
      (h.state == Init || h.state == PlugAcked ==> h'.ackReceived == h.ackReceived) &&
      h'.clientReady == h.clientReady && h'.lastPlug == h.lastPlug
  {
  }

  /** A worker run consumes exactly one outstanding event and keeps the
      back-pressure invariant. */
  lemma SmWorkConsumesOne(h: HandshakeInfo)
    requires h.queued && Inv(h)
    ensures Outstanding(SmWork(h).0) == Outstanding(h) - 1
    ensures Inv(SmWork(h).0)
    ensures SmWork(h).0.pendingWork == if h.pendingWork > 0 then h.pendingWork - 1 else 0
  {
  }

  /** Something that happens to the handshake record. */
  datatype HsEvent = ReadyChange(ready: bool) | Ack(plug: bool) | WorkerRun

  /** The record after a sequence of events; a worker run with no queued
      item does not happen. */
  function Replay(h: HandshakeInfo, evs: seq<HsEvent>): HandshakeInfo
    decreases |evs|
  {
    if evs == [] then h
    else
      var h1 :=
        match evs[0]
        case ReadyChange(r) => ClientReady(h, r)
        case Ack(p) => AckToggle(h, p)
        case WorkerRun => if h.queued then SmWork(h).0 else h;
      Replay(h1, evs[1..])
  }

  /** Every reachable record keeps the back-pressure invariant: an event
      that found the item queued is never left without a run to handle
      it. */
  lemma {:induction false} ReplayKeepsInv(h: HandshakeInfo, evs: seq<HsEvent>)
    requires Inv(h)
    ensures Inv(Replay(h, evs))
    decreases |evs|
  {
    if evs != [] {
      var h1 :=
        match evs[0]
        case ReadyChange(r) => ClientReady(h, r)
        case Ack(p) => AckToggle(h, p)
        case WorkerRun => if h.queued then SmWork(h).0 else h;
      if evs[0].WorkerRun? && h.queued {
        SmWorkConsumesOne(h);
      }
      assert Inv(h1);
      ReplayKeepsInv(h1, evs[1..]);
    }
  }

  /** The record after `n` consecutive worker runs. */
  function Drain(h: HandshakeInfo, n: nat): HandshakeInfo
    decreases n
  {
    if n == 0 || !h.queued then h else Drain(SmWork(h).0, n - 1)
  }

  /** No event is lost: exactly as many worker runs as there are
      outstanding events leave nothing queued or pending. */
  lemma {:induction false} DrainEmpties(h: HandshakeInfo)
    requires Inv(h)
    ensures var h' := Drain(h, Outstanding(h)); !h'.queued && h'.pendingWork == 0
    decreases Outstanding(h)
  {
    if Outstanding(h) > 0 {
      assert h.queued;
      SmWorkConsumesOne(h);
      DrainEmpties(SmWork(h).0);
    }
  }

  /** The handshake record as the driver keeps it, updated in place. The
      reset callback is opaque; only whether one is registered is kept. */
  class Handshake {
    var state: SmState
    var clientReady: bool
    var ackReceived: bool
    var pendingWork: nat
    var queued: bool
    var lastPlug: bool
    var hasResetCb: bool
    /** Effects sent to the modem or the client, in order. */
    var effects: seq<SmEffect>

    function Info(): HandshakeInfo
      reads this
    {
      HandshakeInfo(state, clientReady, ackReceived, pendingWork, queued, lastPlug)
    }

    predicate Valid()
      reads this
    {
      Inv(Info())
    }

    /** The state set up at probe. */
    constructor ()
      ensures Info() == InitialInfo && Valid()
      ensures !hasResetCb && effects == []
    {
      state := Init;
      clientReady := false;
      ackReceived := false;
      pendingWork := 0;
      queued := false;
      lastPlug := false;
      hasResetCb := false;
      effects := [];
    }

    /** Replace the record by `h`. */
    method Store(h: HandshakeInfo)
      modifies this
      ensures Info() == h
      ensures hasResetCb == old(hasResetCb) && effects == old(effects)
    {
      state := h.state;
      clientReady := h.clientReady;
      ackReceived := h.ackReceived;
      pendingWork := h.pendingWork;
      queued := h.queued;
      lastPlug := h.lastPlug;
    }

    /** Queue the work item, or count the event when it is queued already. */
    method QueueWork()
      requires Valid()
      modifies this
      ensures Valid()
      ensures Info() == Enqueue(old(Info()))
      ensures hasResetCb == old(hasResetCb) && effects == old(effects)
    {
      if queued {
        pendingWork := pendingWork + 1;
      } else {
        queued := true;
      }
    }

    /** usb_bam_client_ready; always returns 0. */
    method ClientReadyChanged(ready: bool) returns (ret: int)
      requires Valid()
      modifies this
      ensures Valid()
      ensures ret == 0
      ensures Info() == ClientReady(old(Info()), ready)
      ensures hasResetCb == old(hasResetCb) && effects == old(effects)
    {
      if clientReady == ready {
        return 0;
      }
      clientReady := ready;
      QueueWork();
      return 0;
    }

    /** usb_bam_ack_toggle_cb with the plug bit of the modem's new state. */
    method AckToggleCb(plug: bool)
      requires Valid()
      modifies this
      ensures Valid()
      ensures Info() == AckToggle(old(Info()), plug)
      ensures hasResetCb == old(hasResetCb) && effects == old(effects)
    {
      if plug == lastPlug {
        return;
      }
      lastPlug := plug;
      ackReceived := true;
      QueueWork();
    }

    /** usb_bam_sm_work: one run of the queued work item. The reset
        callback is called on the unplug acknowledgement whether or not
        one is registered, as the code does. */
    method SmWorkRun()
      requires Valid() && queued
      modifies this
      ensures Valid()
      ensures Info() == SmWork(old(Info())).0
      ensures effects == old(effects) + (if SmWork(old(Info())).1 == NoEffect then [] else [SmWork(old(Info())).1])
      ensures hasResetCb == old(hasResetCb)
    {
      SmWorkConsumesOne(Info());
      queued := false;
      var eff := NoEffect;
      match state {
        case Init =>
          if clientReady {
            eff := NotifyPlug;
            state := PlugNotified;
          }
        case PlugNotified =>
          if ackReceived {
            state := PlugAcked;
          }
          ackReceived := false;
        case PlugAcked =>
          if !clientReady {
            eff := NotifyUnplug;
            state := UnplugNotified;
          }
        case UnplugNotified =>
          if ackReceived {
            eff := RunResetCallback;
            state := Init;
          }
          ackReceived := false;
      }
      if eff != NoEffect {
        effects := effects + [eff];
      }
      if pendingWork > 0 {
        pendingWork := pendingWork - 1;
        queued := true;
      }
    }

    /** usb_bam_register_peer_reset_cb. With a callback: store it, register
        for the modem's plug bit (`registerRet` is the answer) and, when
        that succeeds and the modem's bit `modemPlug` is set, process it as
        an acknowledgement. Without one: clear the callback and
        deregister; the result is then 0. */
    method RegisterPeerResetCb(hasCallback: bool, registerRet: int, modemPlug: bool) returns (ret: int)
      requires Valid()
      modifies this
      ensures Valid()
      ensures hasResetCb == hasCallback
      ensures ret == (if hasCallback then registerRet else 0)
      ensures Info() == (if hasCallback && registerRet == 0 && modemPlug then AckToggle(old(Info()), true) else old(Info()))
      ensures effects == old(effects)
    {
      ret := 0;
      if hasCallback {
        hasResetCb := true;
        ret := registerRet;
        if ret == 0 && modemPlug {
          AckToggleCb(true);
        }
      } else {
        hasResetCb := false;
      }
    }
  }
}
