/** The health watcher (nvidia.go, watchXIDs). NVML is replaced by inputs:
    `regs` holds the answer to each health-event registration call, one per
    device in list order, and `events` holds what successive waits returned,
    up to the moment the context is cancelled. The output channel is the
    sequence of devices sent on it, in order. */
module HealthMonitor {
  import opened Common
  import opened IdentityCodec
  import opened DeviceCatalog

  /** What RegisterEventForDevice answered: success or an error message. */
  datatype RegistrationResult = Registered | RegistrationError(message: string)

  /** A GPU too old to report health: the error message ends in "Not Supported". */
  predicate NotSupported(r: RegistrationResult)
  {
    r.RegistrationError? && HasSuffix(r.message, "Not Supported")
  }

  /** Any other registration error ends the watcher. */
  predicate FatalRegistration(r: RegistrationResult)
  {
    r.RegistrationError? && !NotSupported(r)
  }

  datatype EventType = XidCriticalError | OtherEventType

  /** One return of WaitForEvent: whether the wait reported an error (a
      timeout, say), the event type and data (the XID code), and the UUID of
      the GPU concerned, if any. */
  datatype Event = Event(waitFailed: bool, etype: EventType, edata: nat, uuid: Option<string>)

  /** How the watcher ended: the context was cancelled, or it panicked. */
  datatype WatchStatus = Cancelled | Aborted(error: FatalError)

  // ---------------------------------------------------------------------
  // Setup: one registration per device

  /** The index of the first fatal registration, or |regs| when there is none. */
  function SetupStop(regs: seq<RegistrationResult>): (k: nat)
    ensures k <= |regs|
    ensures forall i :: 0 <= i < k ==> !FatalRegistration(regs[i])
    ensures k < |regs| ==> FatalRegistration(regs[k])
  {
    if regs == [] || FatalRegistration(regs[0]) then 0 else 1 + SetupStop(regs[1..])
  }

  /** The devices whose registration answered "Not Supported", in list order. */
  function Unsupported(devs: seq<Device>, regs: seq<RegistrationResult>): (r: seq<Device>)
    requires |devs| == |regs|
    ensures forall d :: d in r ==> d in devs
  {
    if devs == [] then []
    else
      var n := |devs| - 1;
      Unsupported(devs[..n], regs[..n]) + (if NotSupported(regs[n]) then [devs[n]] else [])
  }

  /** What setup sends on the channel: the unsupported devices among those
      handled before the first fatal registration. */
  function SetupEmitted(devs: seq<Device>, regs: seq<RegistrationResult>): seq<Device>
    requires |devs| == |regs|
  {
    var k := SetupStop(regs);
    Unsupported(devs[..k], regs[..k])
  }

  /** The real IDs of a device list, as handed to the registration calls. */
  function RealIDs(devs: seq<Device>): (r: seq<string>)
    ensures |r| == |devs|
    ensures forall i :: 0 <= i < |devs| ==> r[i] == ExtractRealDeviceID(devs[i].id)
  {
    seq(|devs|, i requires 0 <= i < |devs| => ExtractRealDeviceID(devs[i].id))
  }

  lemma {:induction false} UnsupportedCount(devs: seq<Device>, regs: seq<RegistrationResult>, i: nat)
    requires |devs| == |regs| && Distinct(devs) && i < |devs|
    ensures multiset(Unsupported(devs, regs))[devs[i]] == if NotSupported(regs[i]) then 1 else 0
  {
    var n := |devs| - 1;
    var front := Unsupported(devs[..n], regs[..n]);
    if i == n {
      assert devs[i] !in devs[..n];
      assert devs[i] !in front;
    } else {
      assert Distinct(devs[..n]);
      UnsupportedCount(devs[..n], regs[..n], i);
      assert devs[..n][i] == devs[i];
    }
  }

  /** With distinct devices, setup sends a device exactly once when its
      registration answered "Not Supported" before any fatal registration,
      and never otherwise: not when it registered, not when it failed
      fatally, not when a fatal failure came earlier. */
  lemma SetupEmittedCount(devs: seq<Device>, regs: seq<RegistrationResult>, i: nat)
    requires |devs| == |regs| && Distinct(devs) && i < |devs|
    ensures multiset(SetupEmitted(devs, regs))[devs[i]]
         == if i < SetupStop(regs) && NotSupported(regs[i]) then 1 else 0
  {
    var k := SetupStop(regs);
    assert Distinct(devs[..k]);
    if i < k {
      UnsupportedCount(devs[..k], regs[..k], i);
      assert devs[..k][i] == devs[i];
    } else {
      assert devs[i] !in devs[..k];
    }
  }

  /** One more step of the registration loop extends the calls by device i's
      real ID, and the sends by device i when it is unsupported. */
  lemma SetupPrefixNext(devs: seq<Device>, regs: seq<RegistrationResult>, i: nat)
    requires |devs| == |regs| && i < |devs|
    ensures RealIDs(devs[..i + 1]) == RealIDs(devs[..i]) + [ExtractRealDeviceID(devs[i].id)]
    ensures Unsupported(devs[..i + 1], regs[..i + 1])
         == Unsupported(devs[..i], regs[..i]) + (if NotSupported(regs[i]) then [devs[i]] else [])
  {
    assert devs[..i + 1][..i] == devs[..i] && regs[..i + 1][..i] == regs[..i];
  }

  /** The registration loop of watchXIDs: register every device by its real
      ID; a "Not Supported" answer sends the device and moves on, any other
      error stops with a fatal error. */
  method RegisterDevices(devs: seq<Device>, regs: seq<RegistrationResult>)
    returns (xids: seq<Device>, registered: seq<string>, failure: Option<FatalError>)
    requires |regs| == |devs|
    ensures failure.Some? <==> SetupStop(regs) < |devs|
    ensures SetupStop(regs) < |devs| ==>
      failure == Some(RegistrationFailed(ExtractRealDeviceID(devs[SetupStop(regs)].id), regs[SetupStop(regs)].message))
    ensures xids == SetupEmitted(devs, regs)
    ensures registered == RealIDs(devs[..if SetupStop(regs) < |devs| then SetupStop(regs) + 1 else |devs|])
  {
    xids, registered, failure := [], [], None;
    var i := 0;
    while i < |devs|
      invariant i <= SetupStop(regs)
      invariant xids == Unsupported(devs[..i], regs[..i])
      invariant registered == RealIDs(devs[..i])
    {
      var realID := ExtractRealDeviceID(devs[i].id);
      SetupPrefixNext(devs, regs, i);
      registered := registered + [realID];
      if NotSupported(regs[i]) {
        xids := xids + [devs[i]];
      } else if regs[i].RegistrationError? {
        assert SetupStop(regs) == i;
        failure := Some(RegistrationFailed(realID, regs[i].message));
        return;
      }
      i := i + 1;
    }
  }

  // ---------------------------------------------------------------------
  // The event loop

  /** XID codes that signal an application error: the GPU is still healthy. */
  predicate IsApplicationXid(code: nat)
  {
    code == 31 || code == 43 || code == 45
  }

  /** The devices one event sends on the channel, in order. */
  function Dispatch(devs: seq<Device>, e: Event): seq<Device>
  {
    if e.waitFailed && e.etype != XidCriticalError then []
    else if IsApplicationXid(e.edata) then []
    else if e.uuid.None? || |e.uuid.value| == 0 then devs
    else DevicesOf(devs, e.uuid.value)
  }

  /** One iteration of the event loop: the channel so far, extended. */
  function Step(emitted: seq<Device>, devs: seq<Device>, e: Event): seq<Device>
  {
    emitted + Dispatch(devs, e)
  }

  /** The channel after the event loop has handled `events` in order,
      starting from the channel `emitted`. */
  function Run(emitted: seq<Device>, devs: seq<Device>, events: seq<Event>): seq<Device>
    decreases |events|
  {
    if events == [] then emitted else Run(Step(emitted, devs, events[0]), devs, events[1..])
  }

  /** A failed wait that is not an XID critical error, and an application
      XID code, send nothing. */
  lemma DispatchAbsorbed(devs: seq<Device>, e: Event)
    requires (e.waitFailed && e.etype != XidCriticalError) || IsApplicationXid(e.edata)
    ensures Dispatch(devs, e) == []
  {
  }

  /** A failed wait whose event is an XID critical error is not absorbed by
      the error check: it is handled like a successful wait. */
  lemma FailedCriticalWaitDispatched(devs: seq<Device>, e: Event)
    requires e.waitFailed && e.etype == XidCriticalError
    ensures Dispatch(devs, e) == Dispatch(devs, e.(waitFailed := false))
  {
  }

  /** A hardware XID without a GPU UUID sends every device once, in list order. */
  lemma DispatchUnattributed(devs: seq<Device>, e: Event)
    requires !(e.waitFailed && e.etype != XidCriticalError) && !IsApplicationXid(e.edata)
    requires e.uuid.None? || e.uuid.value == ""
    ensures Dispatch(devs, e) == devs
  {
  }

  /** A hardware XID with a UUID sends exactly the devices whose real ID is
      that UUID, each as often as it occurs in the list, and no other. */
  lemma DispatchAttributed(devs: seq<Device>, e: Event)
    requires !(e.waitFailed && e.etype != XidCriticalError) && !IsApplicationXid(e.edata)
    requires e.uuid.Some? && e.uuid.value != ""
    ensures forall d :: d in Dispatch(devs, e) ==> ExtractRealDeviceID(d.id) == e.uuid.value
    ensures forall d :: multiset(Dispatch(devs, e))[d]
                        == if ExtractRealDeviceID(d.id) == e.uuid.value then multiset(devs)[d] else 0
  {
    forall d ensures multiset(Dispatch(devs, e))[d]
      == if ExtractRealDeviceID(d.id) == e.uuid.value then multiset(devs)[d] else 0
    {
      DevicesOfCount(devs, e.uuid.value, d);
    }
  }

  /** On a catalog of distinct valid UUIDs with factor k, a hardware XID on
      one GPU sends its k replicas, in replica order, and nothing else. */
  lemma DispatchOnCatalog(uuids: seq<string>, factor: nat, i: nat, e: Event)
    requires Distinct(uuids) && forall k :: 0 <= k < |uuids| ==> ValidRealID(uuids[k])
    requires i < |uuids| && uuids[i] != ""
    requires !(e.waitFailed && e.etype != XidCriticalError) && !IsApplicationXid(e.edata)
    requires e.uuid == Some(uuids[i])
    ensures Dispatch(Catalog(uuids, factor), e) == ReplicasOf(uuids[i], factor)
    ensures |Dispatch(Catalog(uuids, factor), e)| == factor
  {
    CatalogDevicesOf(uuids, factor, i);
  }

  /** The event loop only appends to the channel: what was sent before it
      stays, followed by what the events send. */
  lemma {:induction false} RunExtends(emitted: seq<Device>, devs: seq<Device>, events: seq<Event>)
    ensures Run(emitted, devs, events) == emitted + Run([], devs, events)
    decreases |events|
  {
    if events != [] {
      var d := Dispatch(devs, events[0]);
      var rest := Run([], devs, events[1..]);
      RunExtends(emitted + d, devs, events[1..]);
      RunExtends(d, devs, events[1..]);
      assert Step([], devs, events[0]) == d;
      assert Run(emitted, devs, events) == (emitted + d) + rest;
      assert Run([], devs, events) == d + rest;
    }
  }

  /** Handling `a` and then `b` is handling `a + b`. */
  lemma {:induction false} RunAppend(emitted: seq<Device>, devs: seq<Device>, a: seq<Event>, b: seq<Event>)
    ensures Run(emitted, devs, a + b) == Run(Run(emitted, devs, a), devs, b)
    decreases |a|
  {
    if a == [] {
      assert a + b == b;
    } else {
      assert (a + b)[0] == a[0] && (a + b)[1..] == a[1..] + b;
      RunAppend(Step(emitted, devs, a[0]), devs, a[1..], b);
    }
  }

  /** Cancelling after k events: what was sent by then is what setup and
      those k events sent, and running on would only have appended to it. */
  lemma CancellationPrefix(emitted: seq<Device>, devs: seq<Device>, events: seq<Event>, k: nat)
    requires k <= |events|
    ensures Run(emitted, devs, events) == Run(emitted, devs, events[..k]) + Run([], devs, events[k..])
  {
    assert events == events[..k] + events[k..];
    RunAppend(emitted, devs, events[..k], events[k..]);
    RunExtends(Run(emitted, devs, events[..k]), devs, events[k..]);
  }

  /** Send every device, in list order. */
  method SendAll(xids: seq<Device>, devs: seq<Device>) returns (out: seq<Device>)
    ensures out == xids + devs
  {
    out := xids;
    for k := 0 to |devs|
      invariant out == xids + devs[..k]
    {
      assert devs[..k + 1] == devs[..k] + [devs[k]];
      out := out + [devs[k]];
    }
    assert devs[..|devs|] == devs;
  }

  /** Send the devices whose real ID is `realID`, in list order. */
  method SendMatching(xids: seq<Device>, devs: seq<Device>, realID: string) returns (out: seq<Device>)
    ensures out == xids + DevicesOf(devs, realID)
  {
    out := xids;
    for k := 0 to |devs|
      invariant out == xids + DevicesOf(devs[..k], realID)
    {
      ghost var one := if ExtractRealDeviceID(devs[k].id) == realID then [devs[k]] else [];
      assert DevicesOf([devs[k]], realID) == one + DevicesOf([], realID) by {
        assert [devs[k]][1..] == [];
      }
      assert devs[..k + 1] == devs[..k] + [devs[k]];
      DevicesOfAppend(devs[..k], [devs[k]], realID);
      if ExtractRealDeviceID(devs[k].id) == realID {
        out := out + [devs[k]];
      }
    }
    assert devs[..|devs|] == devs;
  }

  /** One pass of the event loop: classify the event and send the devices it concerns. */
  method HandleEvent(xids: seq<Device>, devs: seq<Device>, e: Event) returns (out: seq<Device>)
    ensures out == Step(xids, devs, e)
  {
    if e.waitFailed && e.etype != XidCriticalError {
      return xids;
    }
    if IsApplicationXid(e.edata) {
      return xids;
    }
    if e.uuid.None? || |e.uuid.value| == 0 {
      out := SendAll(xids, devs);
    } else {
      out := SendMatching(xids, devs, e.uuid.value);
    }
  }

  /** The event loop of watchXIDs: handle each event in turn until the
      context is cancelled, here the end of `events`. */
  method WatchEvents(xids: seq<Device>, devs: seq<Device>, events: seq<Event>) returns (out: seq<Device>)
    ensures out == Run(xids, devs, events)
  {
    out := xids;
    for k := 0 to |events|
      invariant Run(out, devs, events[k..]) == Run(xids, devs, events)
    {
      assert events[k..][0] == events[k] && events[k..][1..] == events[k + 1..];
      out := HandleEvent(out, devs, events[k]);
    }
  }

  /** watchXIDs: register every device, then handle events until the
      context is cancelled. */
  method WatchXIDs(devs: seq<Device>, regs: seq<RegistrationResult>, events: seq<Event>)
    returns (xids: seq<Device>, registered: seq<string>, status: WatchStatus)
    requires |regs| == |devs|
    ensures SetupStop(regs) < |devs| ==>
      status == Aborted(RegistrationFailed(ExtractRealDeviceID(devs[SetupStop(regs)].id), regs[SetupStop(regs)].message))
    ensures SetupStop(regs) == |devs| ==> status == Cancelled
    ensures registered == RealIDs(devs[..if SetupStop(regs) < |devs| then SetupStop(regs) + 1 else |devs|])
    ensures SetupStop(regs) < |devs| ==> xids == SetupEmitted(devs, regs)
    ensures SetupStop(regs) == |devs| ==> xids == Run(SetupEmitted(devs, regs), devs, events)
  {
    var failure;
    xids, registered, failure := RegisterDevices(devs, regs);
    if failure.Some? {
      status := Aborted(failure.value);
      return;
    }
    status := Cancelled;
    xids := WatchEvents(xids, devs, events);
  }
}
