/**
 * CD3DDeviceManager (core/hw/d3ddevicemanager.cpp, core/hw/D3DDeviceManager.h):
 * the fields the manager updates in place and the methods that update them.
 *
 * The tracking list, the listeners and the notifications sent to them form
 * the value DevicePool.Pool; every list operation is proved to perform the
 * transition of that module.  Display sets, devices and listeners are
 * numbers standing for their pointers.  What the display manager, D3D and
 * the device wrapper answer (the latest display set, whether the display
 * state changed, the results of the create calls, a device's reference
 * count) is passed in.
 */
module DeviceManagers {
  import opened HResults
  import opened DevicePool

  /** GetSWDevice's exit mapping: a lost device is reported as an invalid display state. */
  function LostAsDisplayInvalid(hr: HRESULT): (r: HRESULT)
    ensures r != D3DERR_DEVICELOST
    ensures Failed(r) <==> Failed(hr)
    ensures hr != D3DERR_DEVICELOST ==> r == hr
  {
    if hr == D3DERR_DEVICELOST then WGXERR_DISPLAYSTATEINVALID else hr
  }

  /** CPtrArray::Remove: the first occurrence of x goes, the rest keep their order. */
  function RemoveFirst(s: seq<nat>, x: nat): (r: seq<nat>)
    ensures x !in s ==> r == s
    ensures x in s ==> |r| == |s| - 1 && multiset(r) + multiset{x} == multiset(s)
  {
    if s == [] then []
    else if s[0] == x then
      assert s == [x] + s[1..];
      s[1..]
    else
      assert s == [s[0]] + s[1..];
      [s[0]] + RemoveFirst(s[1..], x)
  }

  /** An index with no d before it, holding d or at the end, is what FirstIndex answers. */
  lemma FirstIndexIsFirst(s: seq<DeviceInfo>, d: nat, i: nat)
    requires i <= |s| && (i < |s| ==> s[i].device == d)
    requires forall j :: 0 <= j < i ==> s[j].device != d
    ensures i < |s| ==> FirstIndex(s, d, 0, |s|) == Some(i)
    ensures i == |s| ==> FirstIndex(s, d, 0, |s|).None?
  {
  }

  class DeviceManager {
    var callers: nat                  // m_cCallers
    var d3dLoaded: bool               // m_fD3DLoaded
    var displaySet: Option<nat>       // m_pDisplaySet
    var nextDisplaySet: Option<nat>   // m_pNextDisplaySet
    var swDevice: Option<nat>         // m_pSWDevice
    var devices: seq<DeviceInfo>      // m_rgDeviceList
    var firstUnusable: nat            // m_iFirstUnusable
    var listeners: seq<nat>           // m_rgAdapterStatusListeners
    var notices: seq<Notice>          // NotifyAdapterStatus calls made

    ghost function PoolView(): Pool
      reads this
    {
      Pool(devices, firstUnusable, listeners, notices)
    }

    /** Devices that count as callers: the tracked ones and the software device. */
    function Tracked(): nat
      reads this
    {
      |devices| + (if swDevice.Some? then 1 else 0)
    }

    /**
     * What holds between calls: the partition is in range; every tracked
     * device is a caller; with D3D unloaded nothing is tracked (the
     * assertions of InitializeD3DReferences and DecCallers).  m_pID3D is
     * only ever released in this code, never set, so it is always NULL and
     * is not a field here.
     */
    ghost predicate Valid()
      reads this
    {
      && firstUnusable <= |devices|
      && callers >= Tracked()
      && (!d3dLoaded ==> |devices| == 0 && swDevice.None? && displaySet.None?)
    }

    constructor ()
      ensures Valid() && callers == 0 && !d3dLoaded
      ensures displaySet.None? && nextDisplaySet.None? && swDevice.None?
      ensures PoolView() == Pool([], 0, [], [])
    {
      callers := 0;
      d3dLoaded := false;
      displaySet := None;
      nextDisplaySet := None;
      swDevice := None;
      devices := [];
      firstUnusable := 0;
      listeners := [];
      notices := [];
    }

    method IncCallers()
      requires Valid()
      modifies this`callers
      ensures Valid() && callers == old(callers) + 1
    {
      callers := callers + 1;
    }

    /**
     * DecCallers: the last caller unloads D3D and drops both display sets.
     * The caller being released is not a tracked device.
     */
    method DecCallers()
      requires Valid() && callers > Tracked()
      modifies this`callers, this`d3dLoaded, this`displaySet, this`nextDisplaySet
      ensures Valid() && callers == old(callers) - 1
      ensures callers == 0 ==> !d3dLoaded && displaySet.None? && nextDisplaySet.None?
      ensures callers > 0 ==> d3dLoaded == old(d3dLoaded) && displaySet == old(displaySet)
                              && nextDisplaySet == old(nextDisplaySet)
    {
      callers := callers - 1;
      if callers == 0 {
        if d3dLoaded {
          displaySet := None;
          d3dLoaded := false;
        }
        nextDisplaySet := None;
      }
    }

    /**
     * InitializeD3DReferences(given): take the latest display set (latestHr
     * and latest are the display manager's answer); a given set that is not
     * the latest fails with WGXERR_DISPLAYSTATEINVALID and changes nothing.
     */
    method InitializeD3DReferences(given: Option<nat>, latestHr: HRESULT, latest: nat) returns (hr: HRESULT)
      requires Valid() && callers > 0
      modifies this`d3dLoaded, this`displaySet, this`nextDisplaySet
      ensures Valid()
      ensures Failed(latestHr) ==> hr == latestHr
      ensures Succeeded(latestHr) && given.Some? && given.value != latest ==> hr == WGXERR_DISPLAYSTATEINVALID
      ensures Failed(hr) ==> d3dLoaded == old(d3dLoaded) && displaySet == old(displaySet)
                             && nextDisplaySet == old(nextDisplaySet)
      ensures Succeeded(hr) <==> Succeeded(latestHr) && (given.None? || given.value == latest)
      ensures Succeeded(hr) ==> d3dLoaded && displaySet == Some(latest) && nextDisplaySet.None?
    {
      hr := latestHr;
      if Failed(hr) {
        return;
      }
      if given.Some? && given.value != latest {
        hr := WGXERR_DISPLAYSTATEINVALID;
        return;
      }
      d3dLoaded := true;
      displaySet := Some(latest);
      nextDisplaySet := None;
    }

    /**
     * GetSWDevice: the software device is created once (createHr is the
     * outcome of creating it) and handed out on every success.
     */
    method GetSWDevice(latestHr: HRESULT, latest: nat, swRastHr: HRESULT, createHr: HRESULT, newDevice: nat)
      returns (hr: HRESULT, device: Option<nat>)
      requires Valid() && callers > 0
      modifies this`d3dLoaded, this`displaySet, this`nextDisplaySet, this`swDevice, this`callers
      ensures Valid() && hr != D3DERR_DEVICELOST
      ensures old(swDevice).Some? ==> swDevice == old(swDevice) && callers == old(callers)
      ensures old(swDevice).None? ==> (swDevice.Some? <==> Succeeded(hr))
      ensures old(swDevice).None? && swDevice.Some? ==> swDevice == Some(newDevice) && callers == old(callers) + 1
      ensures Succeeded(hr) ==> device == swDevice && device.Some?
      ensures Failed(hr) ==> device.None?
      ensures Succeeded(latestHr) ==> d3dLoaded && displaySet == Some(latest) && nextDisplaySet.None?
      ensures Failed(latestHr) ==>
        && hr == LostAsDisplayInvalid(latestHr)
        && d3dLoaded == old(d3dLoaded) && displaySet == old(displaySet) && nextDisplaySet == old(nextDisplaySet)
        && swDevice == old(swDevice) && callers == old(callers)
      ensures Succeeded(latestHr) && old(swDevice).Some? ==> hr == LostAsDisplayInvalid(swRastHr)
      ensures Succeeded(latestHr) && old(swDevice).None? ==>
        hr == LostAsDisplayInvalid(if Failed(swRastHr) then swRastHr else createHr)
    {
      device := None;
      hr := InitializeD3DReferences(None, latestHr, latest);
      if Succeeded(hr) {
        hr := swRastHr;
        if Succeeded(hr) && swDevice.None? {
          hr := createHr;
          if Succeeded(hr) {
            callers := callers + 1;
            swDevice := Some(newDevice);
          }
        }
        if Succeeded(hr) {
          device := swDevice;
        }
      }
      hr := LostAsDisplayInvalid(hr);
    }

    /** GetAvailableDevice: entry 0 of the list, usable or not. */
    method GetAvailableDevice() returns (hr: HRESULT, device: Option<nat>)
      ensures (hr, device) == Available(PoolView())
    {
      if |devices| == 0 {
        return E_FAIL, None;
      }
      hr, device := S_OK, Some(devices[0].device);
    }

    /**
     * CreateNewDevice: fails with WGXERR_DISPLAYSTATEINVALID when the display
     * state changed; otherwise creates the device (createHr: the D3D device
     * and its context, levelHr: the wrapper) and reserves a slot (reserveHr).
     * Only when all succeed is the device tracked and counted as a caller.
     */
    method CreateNewDevice(changed: bool, createHr: HRESULT, levelHr: HRESULT, reserveHr: HRESULT,
                           newDevice: nat, slot: DeviceInfo)
      returns (hr: HRESULT, device: Option<nat>)
      requires Valid() && displaySet.Some?
      modifies this`devices, this`firstUnusable, this`callers
      ensures Valid()
      ensures Succeeded(hr) <==> !changed && Succeeded(createHr) && Succeeded(levelHr) && Succeeded(reserveHr)
      ensures changed ==> hr == WGXERR_DISPLAYSTATEINVALID
      ensures Succeeded(hr) ==> PoolView() == Insert(old(PoolView()), newDevice, slot)
                                && callers == old(callers) + 1 && device == Some(newDevice)
      ensures Failed(hr) ==> PoolView() == old(PoolView()) && callers == old(callers) && device.None?
    {
      device := None;
      if changed {
        hr := WGXERR_DISPLAYSTATEINVALID;
        return;
      }
      hr := createHr;
      if Failed(hr) {
        return;
      }
      hr := levelHr;
      if Succeeded(hr) {
        hr := reserveHr;
      }
      if Succeeded(hr) {
        var iNewLast := |devices|;
        devices := devices + [slot];
        if firstUnusable < iNewLast {
          devices := devices[iNewLast := devices[firstUnusable]];
        }
        devices := devices[firstUnusable := devices[firstUnusable].(device := newDevice, isLost := false)];
        firstUnusable := firstUnusable + 1;
        callers := callers + 1;
        device := Some(newDevice);
      }
    }

    /**
     * GetD3DDevice: settle on the display set, hand out entry 0 or create a
     * device; if the display state has changed by the end, whatever the
     * outcome so far, nothing is handed out and the call fails.
     */
    method GetD3DDevice(given: Option<nat>, latestHr: HRESULT, latest: nat,
                        changedAtCreate: bool, createHr: HRESULT, levelHr: HRESULT, reserveHr: HRESULT,
                        newDevice: nat, slot: DeviceInfo, changedAtEnd: bool)
      returns (hr: HRESULT, device: Option<nat>)
      requires Valid() && callers > 0
      modifies this`d3dLoaded, this`displaySet, this`nextDisplaySet, this`devices, this`firstUnusable,
               this`callers
      ensures Valid()
      ensures displaySet.Some? && changedAtEnd ==> hr == WGXERR_DISPLAYSTATEINVALID && device.None?
      ensures Succeeded(hr) ==> device.Some?
      ensures Succeeded(hr) && |old(devices)| > 0 ==>
                device == Some(old(devices)[0].device) && PoolView() == old(PoolView())
      ensures Failed(hr) ==> device.None?
      ensures var settled := Succeeded(latestHr) && (given.None? || given.value == latest);
        && (settled ==> d3dLoaded && displaySet == Some(latest) && nextDisplaySet.None?)
        && (!settled ==>
              && Failed(hr) && device.None?
              && d3dLoaded == old(d3dLoaded) && displaySet == old(displaySet)
              && nextDisplaySet == old(nextDisplaySet)
              && PoolView() == old(PoolView()) && callers == old(callers))
        && (settled && |old(devices)| > 0 ==>
              && hr == (if changedAtEnd then WGXERR_DISPLAYSTATEINVALID else S_OK)
              && PoolView() == old(PoolView()) && callers == old(callers))
      ensures var created := !changedAtCreate && Succeeded(createHr) && Succeeded(levelHr) && Succeeded(reserveHr);
        var settled := Succeeded(latestHr) && (given.None? || given.value == latest);
        settled && |old(devices)| == 0 ==>
          && (created ==> PoolView() == Insert(old(PoolView()), newDevice, slot) && callers == old(callers) + 1)
          && (!created ==> PoolView() == old(PoolView()) && callers == old(callers))
          && (!changedAtEnd ==> (Succeeded(hr) <==> created))
          && (Succeeded(hr) ==> device == Some(newDevice))
          && (changedAtCreate && !changedAtEnd ==> hr == WGXERR_DISPLAYSTATEINVALID)
    {
      device := None;
      hr := InitializeD3DReferences(given, latestHr, latest);
      if Succeeded(hr) {
        hr, device := GetAvailableDevice();
        if Failed(hr) {
          hr, device := CreateNewDevice(changedAtCreate, createHr, levelHr, reserveHr, newDevice, slot);
        }
      }
      if displaySet.Some? && changedAtEnd {
        device := None;
        hr := WGXERR_DISPLAYSTATEINVALID;
      }
    }

    /** NotifyDeviceLost on entry i: every listener hears of the loss once. */
    method NotifyDeviceLost(i: nat)
      requires i < |devices|
      modifies this`devices, this`notices
      ensures PoolView() == NotifyLost(old(PoolView()), i)
    {
      if !devices[i].isLost {
        devices := devices[i := devices[i].(isLost := true)];
        var adapter := devices[i].adapter;
        var k := 0;
        while k < |listeners|
          modifies this`notices
          invariant k <= |listeners|
          invariant notices == old(notices) + Broadcast(listeners[..k], adapter)
        {
          assert listeners[..k + 1][..k] == listeners[..k];
          notices := notices + [Notice(listeners[k], adapter)];
          k := k + 1;
        }
        assert listeners[..k] == listeners;
      }
    }

    /** UnusableNotification(d): move d from the usable range to the unusable one. */
    method UnusableNotification(d: nat)
      requires Valid() && d3dLoaded
      modifies this`devices, this`notices, this`firstUnusable
      ensures Valid() && PoolView() == Demote(old(PoolView()), d)
    {
      var i := 0;
      while i < firstUnusable && devices[i].device != d
        invariant i <= firstUnusable
        invariant forall j :: 0 <= j < i ==> devices[j].device != d
      {
        i := i + 1;
      }
      if i < firstUnusable {
        NotifyDeviceLost(i);
        firstUnusable := firstUnusable - 1;
        if i != firstUnusable {
          var temp := devices[i];
          devices := devices[i := devices[firstUnusable]];
          devices := devices[firstUnusable := temp];
        }
      }
    }

    /**
     * UnusedNotification(d), refCount being d's reference count: an
     * unreferenced software device is dropped; otherwise an unreferenced
     * tracked device is reported lost and removed.  Each removal releases
     * one caller.
     */
    method UnusedNotification(d: nat, refCount: nat)
      requires Valid()
      modifies this`devices, this`notices, this`firstUnusable, this`swDevice,
               this`callers, this`d3dLoaded, this`displaySet, this`nextDisplaySet
      ensures Valid()
      ensures !old(d3dLoaded) ==> PoolView() == old(PoolView()) && callers == old(callers)
      ensures old(d3dLoaded) && old(swDevice) == Some(d) && refCount == 0 ==>
                swDevice.None? && PoolView() == old(PoolView()) && callers == old(callers) - 1
      ensures old(d3dLoaded) && !(old(swDevice) == Some(d) && refCount == 0) ==>
                && swDevice == old(swDevice)
                && PoolView() == Unused(old(PoolView()), d, refCount).0
                && callers == old(callers) - (if Unused(old(PoolView()), d, refCount).1 then 1 else 0)
    {
      if !d3dLoaded {
        return;
      }
      if swDevice == Some(d) && refCount == 0 {
        swDevice := None;
        DecCallers();
        return;
      }
      var i := FindDevice(d);
      if i < |devices| && refCount == 0 {
        NotifyDeviceLost(i);
        RemoveDevice(i);
        DecCallers();
      }
    }

    /** The search of UnusedNotification: the first entry holding d, or the list's length. */
    method FindDevice(d: nat) returns (i: nat)
      ensures i <= |devices|
      ensures i < |devices| <==> FirstIndex(devices, d, 0, |devices|) == Some(i)
      ensures i == |devices| <==> FirstIndex(devices, d, 0, |devices|).None?
    {
      i := 0;
      while i < |devices| && devices[i].device != d
        invariant i <= |devices|
        invariant forall j :: 0 <= j < i ==> devices[j].device != d
      {
        i := i + 1;
      }
      FirstIndexIsFirst(devices, d, i);
    }

    /** The removal of entry i, keeping the usable entries before the unusable ones. */
    method RemoveDevice(i: nat)
      requires i < |devices| && firstUnusable <= |devices|
      modifies this`devices, this`firstUnusable
      ensures PoolView() == RemoveAt(old(PoolView()), i)
    {
      var iLast := |devices| - 1;
      if i < firstUnusable {
        firstUnusable := firstUnusable - 1;
        devices := devices[i := devices[firstUnusable]];
        devices := devices[firstUnusable := devices[iLast]];
      } else {
        devices := devices[i := devices[iLast]];
      }
      devices := devices[..iLast];
    }

    /**
     * HandleDisplayChange(oldSet, newSet): when oldSet is the set held,
     * every usable device is made unusable, the held set is released and
     * newSet is kept as the next one.  The loop relies on MarkUnusable
     * delivering UnusableNotification for the device it is called on; that
     * is the assumption under which it is modelled (see DevicePool.DemoteAll).
     */
    method HandleDisplayChange(oldSet: nat, newSet: nat)
      requires Valid()
      modifies this`devices, this`notices, this`firstUnusable, this`displaySet, this`nextDisplaySet
      ensures Valid()
      ensures old(displaySet) != Some(oldSet) ==>
                PoolView() == old(PoolView()) && displaySet == old(displaySet)
                && nextDisplaySet == old(nextDisplaySet)
      ensures old(displaySet) == Some(oldSet) ==>
                PoolView() == DemoteAll(old(PoolView())) && firstUnusable == 0
                && displaySet.None? && nextDisplaySet == Some(newSet)
    {
      if displaySet != Some(oldSet) {
        return;
      }
      ghost var target := DemoteAll(PoolView());
      while firstUnusable > 0
        invariant Valid() && DemoteAll(PoolView()) == target
        decreases firstUnusable
      {
        var d := devices[firstUnusable - 1].device;
        assert FirstIndex(devices, d, 0, firstUnusable).Some?;
        UnusableNotification(d);
      }
      if swDevice.Some? {
        UnusableNotification(swDevice.value);
      }
      displaySet := None;
      nextDisplaySet := Some(newSet);
    }

    /** AddAdapterStatusListener: appended when the array could grow (addHr). */
    method AddAdapterStatusListener(listener: nat, addHr: HRESULT) returns (hr: HRESULT)
      modifies this`listeners
      ensures hr == addHr
      ensures listeners == if Succeeded(addHr) then old(listeners) + [listener] else old(listeners)
    {
      hr := addHr;
      if Succeeded(hr) {
        listeners := listeners + [listener];
      }
    }

    method RemoveAdapterStatusListener(listener: nat)
      modifies this`listeners
      ensures listeners == RemoveFirst(old(listeners), listener)
    {
      listeners := RemoveFirst(listeners, listener);
    }
  }
}
