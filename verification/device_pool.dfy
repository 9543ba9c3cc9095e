/**
 * The device manager's tracking list (core/hw/d3ddevicemanager.cpp) as a
 * value: one array of device entries split by firstUnusable into a usable
 * prefix and an unusable suffix, the adapter-status listeners, and the
 * notifications sent to them.
 *
 * Devices and listeners are identified by numbers standing for their
 * pointers.  The class DeviceManager (module DeviceManagers) keeps these
 * fields and each of its list operations is proved to perform exactly one
 * of the transitions below.
 */
module DevicePool {
  import opened HResults

  /** D3DDeviceInformation: the device, the adapter reported when it is lost, fIsDeviceLost. */
  datatype DeviceInfo = DeviceInfo(device: nat, adapter: nat, isLost: bool)

  /** One call NotifyAdapterStatus(adapter, false) on a listener. */
  datatype Notice = Notice(listener: nat, adapter: nat)

  datatype Pool = Pool(
    devices: seq<DeviceInfo>,   // m_rgDeviceList
    firstUnusable: nat,         // m_iFirstUnusable
    listeners: seq<nat>,        // m_rgAdapterStatusListeners
    notices: seq<Notice>)       // every notification sent so far

  predicate Partitioned(p: Pool)
  {
    p.firstUnusable <= |p.devices|
  }

  function Usable(p: Pool): seq<DeviceInfo>
    requires Partitioned(p)
  {
    p.devices[..p.firstUnusable]
  }

  function Unusable(p: Pool): seq<DeviceInfo>
    requires Partitioned(p)
  {
    p.devices[p.firstUnusable..]
  }

  /** The notices of one broadcast: one per listener, in list order. */
  function Broadcast(listeners: seq<nat>, adapter: nat): (r: seq<Notice>)
    ensures |r| == |listeners|
    ensures forall k :: 0 <= k < |r| ==> r[k] == Notice(listeners[k], adapter)
  {
    if listeners == [] then []
    else Broadcast(listeners[..|listeners| - 1], adapter) + [Notice(listeners[|listeners| - 1], adapter)]
  }

  /** NotifyDeviceLost on entry i: set the lost flag, broadcasting only if it was clear. */
  function NotifyLost(p: Pool, i: nat): Pool
    requires i < |p.devices|
  {
    if p.devices[i].isLost then p
    else p.(devices := p.devices[i := p.devices[i].(isLost := true)],
            notices := p.notices + Broadcast(p.listeners, p.devices[i].adapter))
  }

  /** The first index in [lo, hi) whose entry holds device d. */
  function FirstIndex(s: seq<DeviceInfo>, d: nat, lo: nat, hi: nat): (r: Option<nat>)
    requires lo <= hi <= |s|
    ensures r.Some? ==> lo <= r.value < hi && s[r.value].device == d
                        && forall j :: lo <= j < r.value ==> s[j].device != d
    ensures r.None? ==> forall j :: lo <= j < hi ==> s[j].device != d
    decreases hi - lo
  {
    if lo == hi then None
    else if s[lo].device == d then Some(lo)
    else FirstIndex(s, d, lo + 1, hi)
  }

  function Swap<T>(s: seq<T>, i: nat, j: nat): seq<T>
    requires i < |s| && j < |s|
  {
    s[i := s[j]][j := s[i]]
  }

  /**
   * UnusableNotification(d): the first usable entry holding d is reported
   * lost and swapped with the last usable entry; the boundary moves down by
   * one.  A device that is not in the usable range changes nothing.
   */
  function Demote(p: Pool, d: nat): (r: Pool)
    requires Partitioned(p)
    ensures Partitioned(r) && |r.devices| == |p.devices| && r.listeners == p.listeners
    ensures r.firstUnusable == (if FirstIndex(p.devices, d, 0, p.firstUnusable).Some?
                                then p.firstUnusable - 1 else p.firstUnusable)
  {
    match FirstIndex(p.devices, d, 0, p.firstUnusable)
    case None => p
    case Some(i) =>
      var q := NotifyLost(p, i);
      var f := p.firstUnusable - 1;
      q.(devices := if i != f then Swap(q.devices, i, f) else q.devices, firstUnusable := f)
  }

  /**
   * The removal in UnusedNotification: a usable hole is filled by the last
   * usable entry and that entry's slot by the last entry of the list; an
   * unusable hole is filled by the last entry.  The list loses its last slot.
   */
  function RemoveAt(p: Pool, i: nat): (r: Pool)
    requires Partitioned(p) && i < |p.devices|
    ensures Partitioned(r) && |r.devices| == |p.devices| - 1
  {
    var last := |p.devices| - 1;
    if i < p.firstUnusable then
      var f := p.firstUnusable - 1;
      var a := p.devices[i := p.devices[f]];
      p.(devices := a[f := a[last]][..last], firstUnusable := f)
    else
      p.(devices := p.devices[i := p.devices[last]][..last])
  }

  /**
   * UnusedNotification(d) for a device other than the software device: the
   * first entry holding d is reported lost and removed, but only when the
   * device's reference count is zero.  The flag says whether an entry was
   * removed (and so DecCallers is due).
   */
  function Unused(p: Pool, d: nat, refCount: nat): (Pool, bool)
    requires Partitioned(p)
  {
    match FirstIndex(p.devices, d, 0, |p.devices|)
    case None => (p, false)
    case Some(i) => if refCount != 0 then (p, false) else (RemoveAt(NotifyLost(p, i), i), true)
  }

  /**
   * CreateNewDevice's insertion: the list grows by one slot, the first
   * unusable entry moves to it, and the new device takes the vacated slot
   * with its lost flag clear.  Only the device pointer and the flag of that
   * slot are written, so its adapter is the one of the entry that moved
   * away, or what the new slot held (slot) when there was none.
   */
  function Insert(p: Pool, device: nat, slot: DeviceInfo): (r: Pool)
    requires Partitioned(p)
    ensures Partitioned(r)
  {
    var n := |p.devices|;
    var grown := if p.firstUnusable < n then p.devices + [p.devices[p.firstUnusable]] else p.devices + [slot];
    var old_ := grown[p.firstUnusable];
    p.(devices := grown[p.firstUnusable := old_.(device := device, isLost := false)],
       firstUnusable := p.firstUnusable + 1)
  }

  /** GetAvailableDevice: E_FAIL on an empty list, otherwise entry 0. */
  function Available(p: Pool): (HRESULT, Option<nat>)
  {
    if |p.devices| == 0 then (E_FAIL, None) else (S_OK, Some(p.devices[0].device))
  }

  /**
   * HandleDisplayChange's loop, under the assumption that marking the last
   * usable device unusable delivers UnusableNotification for it: demote the
   * last usable device until none is left.
   */
  function DemoteAll(p: Pool): (r: Pool)
    requires Partitioned(p)
    ensures Partitioned(r)
    decreases p.firstUnusable
  {
    if p.firstUnusable == 0 then p
    else
      var d := p.devices[p.firstUnusable - 1].device;
      assert FirstIndex(p.devices, d, 0, p.firstUnusable).Some?;
      DemoteAll(Demote(p, d))
  }

  /**
   * HandleDisplayChange's loop as written: the body is MarkUnusable on the
   * last usable device, which is empty in this code, so one iteration leaves
   * the pool as it was.  Runs the body `steps` times.
   */
  function DisplayChangeLoopAsWritten(p: Pool, steps: nat): Pool
    requires Partitioned(p)
    decreases steps
  {
    if steps == 0 || p.firstUnusable == 0 then p
    else DisplayChangeLoopAsWritten(p, steps - 1)
  }

  // ---- properties ----

  /** A device is reported lost at most once: a second NotifyDeviceLost is a no-op. */
  lemma NotifyLostOnce(p: Pool, i: nat)
    requires i < |p.devices|
    ensures NotifyLost(NotifyLost(p, i), i) == NotifyLost(p, i)
    ensures NotifyLost(p, i).devices[i].isLost
    ensures |NotifyLost(p, i).notices| == |p.notices| + (if p.devices[i].isLost then 0 else |p.listeners|)
    ensures NotifyLost(p, i).notices[..|p.notices|] == p.notices
  {
  }

  /** UnusableNotification for a device outside the usable range changes nothing. */
  lemma DemoteNotFound(p: Pool, d: nat)
    requires Partitioned(p)
    requires forall k :: 0 <= k < p.firstUnusable ==> p.devices[k].device != d
    ensures Demote(p, d) == p
  {
  }

  lemma MultisetUpdate<T>(s: seq<T>, i: nat, x: T)
    requires i < |s|
    ensures multiset(s[i := x]) + multiset{s[i]} == multiset(s) + multiset{x}
  {
    assert s == s[..i] + [s[i]] + s[i + 1..];
    assert s[i := x] == s[..i] + [x] + s[i + 1..];
  }

  lemma MultisetCancel<T>(a: multiset<T>, b: multiset<T>, x: T)
    requires a + multiset{x} == b + multiset{x}
    ensures a == b
  {
    forall z | true
      ensures a[z] == b[z]
    {
      assert (a + multiset{x})[z] == (b + multiset{x})[z];
    }
  }

  /** Swapping entry i with entry f (i < f): the prefix before f has s[f] at i, and s[i] heads the rest. */
  lemma SwapBefore<T>(s: seq<T>, i: nat, f: nat)
    requires i < f < |s|
    ensures Swap(s, i, f)[..f] == s[..f][i := s[f]]
    ensures Swap(s, i, f)[f..] == [s[i]] + s[f + 1..]
    ensures multiset(Swap(s, i, f)[..f]) + multiset{s[i]} == multiset(s[..f + 1])
  {
    MultisetUpdate(s[..f], i, s[f]);
    assert s[..f + 1] == s[..f] + [s[f]];
  }

  /** The usable-hole case of RemoveAt on the bare list: the usable prefix loses s[i]. */
  lemma RemoveUsablePrefix<T>(s: seq<T>, i: nat, f: nat)
    requires i <= f < |s|
    ensures var a := s[i := s[f]];
      multiset(a[f := a[|s| - 1]][..|s| - 1][..f]) + multiset{s[i]} == multiset(s[..f + 1])
  {
    var a := s[i := s[f]];
    var t := a[f := a[|s| - 1]][..|s| - 1];
    assert s[..f + 1] == s[..f] + [s[f]];
    if i < f {
      assert t[..f] == s[..f][i := s[f]];
      MultisetUpdate(s[..f], i, s[f]);
    } else {
      assert t[..f] == s[..f];
    }
  }

  /** The usable-hole case of RemoveAt on the bare list: the unusable part keeps its entries. */
  lemma RemoveUsableSuffix<T>(s: seq<T>, i: nat, f: nat)
    requires i <= f < |s|
    ensures var a := s[i := s[f]];
      multiset(a[f := a[|s| - 1]][..|s| - 1][f..]) == multiset(s[f + 1..])
  {
    var last := |s| - 1;
    var a := s[i := s[f]];
    var t := a[f := a[last]][..last];
    if f < last {
      assert t[f..] == [s[last]] + s[f + 1..last];
      assert s[f + 1..] == s[f + 1..last] + [s[last]];
    } else {
      assert t[f..] == [] && s[f + 1..] == [];
    }
  }

  /** The unusable-hole case of RemoveAt on the bare list. */
  lemma RemoveUnusable<T>(s: seq<T>, u: nat, i: nat)
    requires u <= i < |s|
    ensures var last := |s| - 1;
      var t := s[i := s[last]][..last];
      && t[..u] == s[..u]
      && multiset(t[u..]) + multiset{s[i]} == multiset(s[u..])
  {
    var last := |s| - 1;
    var t := s[i := s[last]][..last];
    if i < last {
      assert t[u..] == s[u..last][i - u := s[last]];
      MultisetUpdate(s[u..last], i - u, s[last]);
      assert s[u..] == s[u..last] + [s[last]];
    } else {
      assert t[u..] == s[u..last];
      assert s[u..] == s[u..last] + [s[last]];
    }
  }

  /**
   * UnusableNotification for a usable device: exactly that entry leaves the
   * usable range, reported lost, and becomes the first unusable entry; the
   * other unusable entries keep their order; listeners hear of it once.
   */
  lemma DemoteFound(p: Pool, d: nat, i: nat)
    requires Partitioned(p) && i < p.firstUnusable && p.devices[i].device == d
    requires forall j :: 0 <= j < i ==> p.devices[j].device != d
    ensures Demote(p, d).firstUnusable == p.firstUnusable - 1
    ensures Unusable(Demote(p, d)) == [p.devices[i].(isLost := true)] + Unusable(p)
    ensures multiset(Usable(Demote(p, d))) + multiset{p.devices[i]} == multiset(Usable(p))
    ensures Demote(p, d).notices
            == p.notices + (if p.devices[i].isLost then [] else Broadcast(p.listeners, p.devices[i].adapter))
  {
    var f := p.firstUnusable - 1;
    assert FirstIndex(p.devices, d, 0, p.firstUnusable) == Some(i);
    var e := p.devices[i].(isLost := true);
    var s := p.devices[i := e];
    assert NotifyLost(p, i).devices == s;
    var r := Demote(p, d);
    if i != f {
      assert r.devices == Swap(s, i, f);
      DemotedUsable(p.devices, i, f, e);
    } else {
      assert r.devices == s;
      assert s[..f] == p.devices[..f];
      assert Usable(p) == s[..f] + [p.devices[i]];
    }
  }

  /** DemoteFound's usable range when the demoted entry was not already last. */
  lemma DemotedUsable(t: seq<DeviceInfo>, i: nat, f: nat, e: DeviceInfo)
    requires i < f < |t|
    ensures multiset(Swap(t[i := e], i, f)[..f]) + multiset{t[i]} == multiset(t[..f + 1])
    ensures Swap(t[i := e], i, f)[f..] == [e] + t[f + 1..]
  {
    var s := t[i := e];
    SwapBefore(s, i, f);
    assert s[..f + 1] == t[..f + 1][i := e];
    MultisetUpdate(t[..f + 1], i, e);
    MultisetCancel(multiset(Swap(s, i, f)[..f]) + multiset{t[i]}, multiset(t[..f + 1]), e);
  }

  /**
   * UnusedNotification's removal keeps both ranges contiguous: a usable
   * entry leaves the usable range and the unusable range keeps its entries.
   */
  lemma RemoveUsableEntry(p: Pool, i: nat)
    requires Partitioned(p) && i < p.firstUnusable
    ensures RemoveAt(p, i).firstUnusable == p.firstUnusable - 1
    ensures multiset(Usable(RemoveAt(p, i))) + multiset{p.devices[i]} == multiset(Usable(p))
    ensures multiset(Unusable(RemoveAt(p, i))) == multiset(Unusable(p))
  {
    var r := RemoveAt(p, i);
    var last := |p.devices| - 1;
    var f := p.firstUnusable - 1;
    var a := p.devices[i := p.devices[f]];
    var t := a[f := a[last]][..last];
    assert r == p.(devices := t, firstUnusable := f);
    RemoveUsablePrefix(p.devices, i, f);
    RemoveUsableSuffix(p.devices, i, f);
    assert Usable(r) == t[..f] && Unusable(r) == t[f..];
    assert Usable(p) == p.devices[..f + 1] && Unusable(p) == p.devices[f + 1..];
  }

  /** ... or an unusable entry leaves and the usable range is untouched. */
  lemma RemoveUnusableEntry(p: Pool, i: nat)
    requires Partitioned(p) && p.firstUnusable <= i < |p.devices|
    ensures RemoveAt(p, i).firstUnusable == p.firstUnusable
    ensures Usable(RemoveAt(p, i)) == Usable(p)
    ensures multiset(Unusable(RemoveAt(p, i))) + multiset{p.devices[i]} == multiset(Unusable(p))
  {
    var r := RemoveAt(p, i);
    assert r.devices == p.devices[i := p.devices[|p.devices| - 1]][..|p.devices| - 1];
    RemoveUnusable(p.devices, p.firstUnusable, i);
  }

  /**
   * UnusedNotification removes an entry exactly when the device is tracked
   * and unreferenced; a removal shrinks the list by one and reports the
   * device lost (once) before it goes.
   */
  lemma UnusedOutcome(p: Pool, d: nat, refCount: nat)
    requires Partitioned(p)
    ensures var (r, removed) := Unused(p, d, refCount);
      && (removed <==> refCount == 0 && exists k :: 0 <= k < |p.devices| && p.devices[k].device == d)
      && (!removed ==> r == p)
      && (removed ==> |r.devices| == |p.devices| - 1 && r.listeners == p.listeners)
  {
  }

  /**
   * CreateNewDevice's insertion appends the new device to the usable range
   * with its lost flag clear, and only moves the unusable entries.
   */
  lemma InsertPartition(p: Pool, device: nat, slot: DeviceInfo)
    requires Partitioned(p)
    ensures var r := Insert(p, device, slot);
      && r.firstUnusable == p.firstUnusable + 1 && |r.devices| == |p.devices| + 1
      && Usable(r)[..p.firstUnusable] == Usable(p)
      && r.devices[p.firstUnusable].device == device && !r.devices[p.firstUnusable].isLost
      && multiset(Unusable(r)) == multiset(Unusable(p))
      && r.notices == p.notices && r.listeners == p.listeners
  {
    var r := Insert(p, device, slot);
    var s := p.devices;
    var u := p.firstUnusable;
    if u < |s| {
      assert Unusable(r) == s[u + 1..] + [s[u]];
      assert Unusable(p) == [s[u]] + s[u + 1..];
    }
  }

  /** GetAvailableDevice does not look at the partition: an unusable entry 0 is handed out too. */
  lemma AvailableIgnoresPartition(p: Pool, k: nat)
    ensures Available(p) == Available(p.(firstUnusable := k))
    ensures |p.devices| > 0 ==> Available(p).1 == Some(p.devices[0].device)
    ensures Failed(Available(p).0) <==> |p.devices| == 0
  {
  }

  /**
   * Under the assumption, HandleDisplayChange's loop ends with no usable
   * device, every formerly usable entry reported lost, and the unusable
   * entries untouched.
   */
  lemma {:induction false} DemoteAllEmptiesUsable(p: Pool)
    requires Partitioned(p)
    ensures var r := DemoteAll(p);
      && r.firstUnusable == 0 && |r.devices| == |p.devices| && r.listeners == p.listeners
      && r.devices[p.firstUnusable..] == p.devices[p.firstUnusable..]
      && forall k :: 0 <= k < p.firstUnusable ==> r.devices[k].isLost
    decreases p.firstUnusable
  {
    if p.firstUnusable > 0 {
      var f := p.firstUnusable - 1;
      var d := p.devices[f].device;
      var i := FirstIndex(p.devices, d, 0, p.firstUnusable).value;
      var q := Demote(p, d);
      DemoteFound(p, d, i);
      DemoteAllEmptiesUsable(q);
      assert q.devices[f..] == [p.devices[i].(isLost := true)] + p.devices[f + 1..];
      assert q.devices[f].isLost;
    }
  }

  /**
   * As written, the loop never ends while a usable device exists: however
   * many times its body runs, the usable range is unchanged.
   */
  lemma {:induction false} DisplayChangeLoopAsWrittenSpins(p: Pool, steps: nat)
    requires Partitioned(p) && p.firstUnusable > 0
    ensures DisplayChangeLoopAsWritten(p, steps).firstUnusable == p.firstUnusable > 0
    decreases steps
  {
    if steps > 0 {
      DisplayChangeLoopAsWrittenSpins(p, steps - 1);
    }
  }
}
