/** The connection table of the USB BAM pipe manager: BAM instances, pipe
    connections with their runtime flags, the per-BAM enabled-pipe count
    that the manager keeps in step with the table, and the lookup of a BAM
    instance from a controller's core name. */
module BamTypes {

  // Linux error numbers returned (negated) by the driver.
  const EINVAL := 22
  const ENODEV := 19
  const ENOMEM := 12
  const EINPROGRESS := 115

  /** Number of BAM instances: SSUSB, HSUSB and HSIC. */
  const MaxBams := 3

  /** Index of a BAM instance into the per-BAM arrays. */
  type BamId = b: int | 0 <= b < MaxBams

  const SsUsbBam: BamId := 0
  const HsUsbBam: BamId := 1
  const HsicBam: BamId := 2

  /** Longest core name the driver searches (USB_BAM_MAX_STR_LEN). */
  const MaxStrLen := 50

  /** bam_enable_strings: the name of each BAM instance. */
  function BamName(b: BamId): string
  {
    if b == SsUsbBam then "ssusb" else if b == HsUsbBam then "hsusb" else "hsic"
  }

  /** Direction of a pipe, seen from the USB controller. */
  datatype Dir = UsbToPeer | PeerToUsb

  /** Where a pipe's data and descriptor FIFOs live; the device tree may
      carry a value that names none of the four. */
  datatype MemType = SpsPipeMem | UsbPrivateMem | OciMem | SystemMem | UnknownMem(code: nat)

  /** Kind of deferred work armed in a pipe's event slot. */
  datatype EventKind = NoEvent | Wakeup | WakeupPipe | Inactivity

  /** usb_bam_event_info: the deferred callback a pipe's work item runs;
      callbacks are opaque, so only whether one is registered is kept. */
  datatype EventInfo = EventInfo(kind: EventKind, hasCallback: bool)

  /** usb_bam_pipe_connect: identity fields loaded once from the
      configuration, and the runtime fields connect and disconnect change.
      `fifoPhysSet` stands for a non-zero physical base in the pipe's
      backend FIFO descriptors; `workQueued` is the pending bit of the
      pipe's work item. */
  datatype PipeConnection = PipeConnection(
    name: string,
    bam: BamId,
    peer: nat,
    dir: Dir,
    pipeNum: nat,
    memType: MemType,
    srcPipeIndex: nat,
    dstPipeIndex: nat,
    enabled: bool,
    hasActivityCb: bool,
    hasInactivityCb: bool,
    event: EventInfo,
    workQueued: bool,
    fifoPhysSet: bool)

  /** One if connection `c` is an enabled pipe of BAM `b`. */
  function Contribution(c: PipeConnection, b: BamId): nat
  {
    if c.enabled && c.bam == b then 1 else 0
  }

  /** Number of enabled connections of BAM `b` in table `t`: the value
      pipes_enabled_per_bam[b] must always hold. */
  function CountEnabled(t: seq<PipeConnection>, b: BamId): (n: nat)
    ensures n <= |t|
  {
    if t == [] then 0 else Contribution(t[0], b) + CountEnabled(t[1..], b)
  }

  /** Changing one entry of the table changes the count by the difference
      of the two entries' contributions. */
  lemma {:induction false} CountEnabledUpdate(t: seq<PipeConnection>, i: nat, x: PipeConnection, b: BamId)
    requires i < |t|
    ensures CountEnabled(t[i := x], b) == CountEnabled(t, b) - Contribution(t[i], b) + Contribution(x, b)
  {
    if i == 0 {
      assert t[i := x][1..] == t[1..];
    } else {
      assert t[i := x][1..] == t[1..][i - 1 := x];
      CountEnabledUpdate(t[1..], i - 1, x, b);
    }
  }

  /** The count is positive exactly when some connection of the BAM is
      enabled. */
  lemma {:induction false} CountEnabledPositive(t: seq<PipeConnection>, b: BamId)
    ensures CountEnabled(t, b) > 0 <==> exists i :: 0 <= i < |t| && t[i].enabled && t[i].bam == b
  {
    if t != [] {
      CountEnabledPositive(t[1..], b);
      if CountEnabled(t[1..], b) > 0 {
        var j :| 0 <= j < |t[1..]| && t[1..][j].enabled && t[1..][j].bam == b;
        assert t[j + 1].enabled && t[j + 1].bam == b;
      }
      if exists i :: 0 <= i < |t| && t[i].enabled && t[i].bam == b {
        var i :| 0 <= i < |t| && t[i].enabled && t[i].bam == b;
        if i > 0 {
          assert t[1..][i - 1] == t[i];
        }
      }
    }
  }

  /** A table with no enabled connection counts zero for every BAM. */
  lemma {:induction false} CountEnabledNone(t: seq<PipeConnection>, b: BamId)
    requires forall i :: 0 <= i < |t| ==> !t[i].enabled
    ensures CountEnabled(t, b) == 0
  {
    if t != [] {
      assert forall i :: 0 <= i < |t[1..]| ==> !t[1..][i].enabled by {
        forall i | 0 <= i < |t[1..]| ensures !t[1..][i].enabled {
          assert t[1..][i] == t[i + 1];
        }
      }
      CountEnabledNone(t[1..], b);
    }
  }

  /** Pattern `p` stands in `s` starting at position `j`. */
  predicate OccursAt(s: string, p: string, j: nat)
  {
    j + |p| <= |s| && s[j..j + |p|] == p
  }

  /** Reference meaning of strnstr: `p` occurs in `s` wholly within the
      first `limit` characters. */
  ghost predicate Occurs(s: string, p: string, limit: nat)
  {
    exists j: nat :: j + |p| <= limit && OccursAt(s, p, j)
  }

  /** The scan strnstr performs: try each start position from `k` on,
      while the pattern still fits within the limit. Past the end of `s`
      stands its terminator, which no character of a pattern matches. */
  function SearchFrom(s: string, p: string, k: nat, limit: nat): bool
    decreases |s| - k
  {
    if k + |p| > limit || k + |p| > |s| then false
    else if s[k..k + |p|] == p then true
    else SearchFrom(s, p, k + 1, limit)
  }

  /** strnstr(s, p, limit) != NULL. An empty pattern is always found. */
  function StrnStr(s: string, p: string, limit: nat): bool
  {
    |p| == 0 || SearchFrom(s, p, 0, limit)
  }

  lemma {:induction false} SearchFromSpec(s: string, p: string, k: nat, limit: nat)
    ensures SearchFrom(s, p, k, limit) <==> exists j: nat :: k <= j && j + |p| <= limit && OccursAt(s, p, j)
    decreases |s| - k
  {
    if k + |p| > limit || k + |p| > |s| {
      assert forall j: nat :: k <= j && j + |p| <= limit ==> !OccursAt(s, p, j);
    } else if s[k..k + |p|] == p {
      assert OccursAt(s, p, k);
    } else {
      SearchFromSpec(s, p, k + 1, limit);
      assert !OccursAt(s, p, k);
      assert forall j: nat :: k <= j && j + |p| <= limit && OccursAt(s, p, j) ==> k + 1 <= j;
    }
  }

  /** The scan finds the pattern exactly when it occurs within the limit. */
  lemma StrnStrSpec(s: string, p: string, limit: nat)
    ensures StrnStr(s, p, limit) <==> Occurs(s, p, limit)
  {
    SearchFromSpec(s, p, 0, limit);
    if |p| == 0 {
      assert OccursAt(s, p, 0);
    }
  }

  /** get_bam_type_from_core_name: SSUSB for "ssusb" or "dwc3", else HSIC
      for "hsic", else HSUSB for "hsusb" or "ci", else -EINVAL. */
  function BamOfCoreName(name: string): (r: int)
    ensures r == -EINVAL || 0 <= r < MaxBams
    ensures r == SsUsbBam <==> StrnStr(name, "ssusb", MaxStrLen) || StrnStr(name, "dwc3", MaxStrLen)
    ensures r == -EINVAL ==> !StrnStr(name, "hsic", MaxStrLen) && !StrnStr(name, "ci", MaxStrLen)
  {
    if StrnStr(name, "ssusb", MaxStrLen) || StrnStr(name, "dwc3", MaxStrLen) then SsUsbBam
    else if StrnStr(name, "hsic", MaxStrLen) then HsicBam
    else if StrnStr(name, "hsusb", MaxStrLen) || StrnStr(name, "ci", MaxStrLen) then HsUsbBam
    else -EINVAL
  }

  /** The lookup stated against where the patterns occur in the name. */
  lemma BamOfCoreNameSpec(name: string)
    ensures BamOfCoreName(name) == SsUsbBam <==> Occurs(name, "ssusb", MaxStrLen) || Occurs(name, "dwc3", MaxStrLen)
    ensures BamOfCoreName(name) == HsicBam <==>
      !Occurs(name, "ssusb", MaxStrLen) && !Occurs(name, "dwc3", MaxStrLen) && Occurs(name, "hsic", MaxStrLen)
    ensures BamOfCoreName(name) == HsUsbBam <==>
      !Occurs(name, "ssusb", MaxStrLen) && !Occurs(name, "dwc3", MaxStrLen) && !Occurs(name, "hsic", MaxStrLen) &&
      (Occurs(name, "hsusb", MaxStrLen) || Occurs(name, "ci", MaxStrLen))
    ensures BamOfCoreName(name) == -EINVAL <==>
      !Occurs(name, "ssusb", MaxStrLen) && !Occurs(name, "dwc3", MaxStrLen) && !Occurs(name, "hsic", MaxStrLen) &&
      !Occurs(name, "hsusb", MaxStrLen) && !Occurs(name, "ci", MaxStrLen)
  {
    StrnStrSpec(name, "ssusb", MaxStrLen);
    StrnStrSpec(name, "dwc3", MaxStrLen);
    StrnStrSpec(name, "hsic", MaxStrLen);
    StrnStrSpec(name, "hsusb", MaxStrLen);
    StrnStrSpec(name, "ci", MaxStrLen);
  }

  /** Each BAM's own name maps back to that BAM: the timer interrupt,
      whose user cookie is the BAM's name, always resolves to a valid
      instance. */
  lemma BamNameRoundTrip(b: BamId)
    ensures BamOfCoreName(BamName(b)) == b
  {
    var s := BamName(b);
    if b == SsUsbBam {
      assert SearchFrom(s, "ssusb", 0, MaxStrLen);
    } else if b == HsUsbBam {
      NoMatchFromFirstChar(s, "ssusb", 0);
      NoMatchFromFirstChar(s, "dwc3", 0);
      assert s[0..4][2] != "hsic"[2];
      NoMatchFromFirstChar(s, "hsic", 1);
      assert SearchFrom(s, "hsusb", 0, MaxStrLen);
    } else {
      NoMatchFromFirstChar(s, "ssusb", 0);
      NoMatchFromFirstChar(s, "dwc3", 0);
      assert SearchFrom(s, "hsic", 0, MaxStrLen);
    }
  }

  /** A scan from `k` finds nothing when no start position it may try
      holds the pattern's first character. */
  lemma {:induction false} NoMatchFromFirstChar(s: string, p: string, k: nat)
    requires |p| > 0
    requires forall j :: k <= j && j + |p| <= |s| ==> s[j] != p[0]
    ensures !SearchFrom(s, p, k, MaxStrLen)
    decreases |s| - k
  {
    if k + |p| <= MaxStrLen && k + |p| <= |s| {
      assert s[k..k + |p|][0] != p[0];
      NoMatchFromFirstChar(s, p, k + 1);
    }
  }
}
