/**
 * CHwVidMemTextureManager (core/hw/HwVidMemTextureManager.cpp): the
 * realization parameters, a system-memory texture that is (re)created and
 * locked for update, and the video-memory texture the bits are pushed to.
 *
 * Textures are handles; whether a held texture is still valid is asked of
 * the resource manager, so each method takes that answer as a parameter.
 * The lock mark is the debug-build flag the source asserts on.
 */
module VidMemTextureManagers {
  import opened HResults
  import opened Textures

  class VidMemTextureManager {
    var device: Option<nat>          // m_pDeviceNoRef
    var sysMem: Option<nat>          // m_pSysMemTexture
    var vidMem: Option<nat>          // m_pVideoMemTexture
    var desc: TextureDesc            // m_descRequiredForVidMem
    var levels: nat                  // m_uLevelsForVidMem
    var locked: bool                 // m_fDBGSysMemTextureIsLocked
    var pushes: seq<(nat, nat)>      // (sysmem, vidmem) pairs given to UpdateTexture

    /** Textures exist only once parameters are set, and a locked texture is held. */
    predicate Valid()
      reads this
    {
      && (device.None? ==> sysMem.None? && vidMem.None? && !locked)
      && (locked ==> sysMem.Some?)
    }

    /** HasRealizationParameters: a device has been recorded. */
    predicate HasRealizationParameters()
      reads this
    {
      device.Some?
    }

    /** The constructor runs Initialize. */
    constructor ()
      ensures Valid() && !HasRealizationParameters()
      ensures sysMem.None? && vidMem.None? && !locked
      ensures desc == TextureDesc(0, 0, 0, 0) && levels == 0 && pushes == []
    {
      device := None;
      sysMem := None;
      vidMem := None;
      desc := TextureDesc(0, 0, 0, 0);
      levels := 0;
      locked := false;
      pushes := [];
    }

    /** PrepareForNewRealization: Destroy (never while locked), then Initialize. */
    method PrepareForNewRealization()
      requires Valid() && !locked
      modifies this`device, this`sysMem, this`vidMem, this`desc, this`levels, this`locked
      ensures Valid() && !HasRealizationParameters()
      ensures sysMem.None? && vidMem.None? && !locked
      ensures desc == TextureDesc(0, 0, 0, 0) && levels == 0
    {
      sysMem := None;
      vidMem := None;
      device := None;
      desc := TextureDesc(0, 0, 0, 0);
      levels := 0;
      locked := false;
    }

    /**
     * SetRealizationParameters: only once per realization.  Records the
     * device and, through ComputeTextureDesc, the format, the size and the
     * level count DetermineLevels gives.
     */
    method SetRealizationParameters(dev: nat, format: nat, width: nat, height: nat, mip: MipMapLevel)
      requires Valid() && !HasRealizationParameters()
      modifies this`device, this`desc, this`levels
      ensures Valid() && HasRealizationParameters() && device == Some(dev)
      ensures desc == old(desc).(width := width, height := height, format := format)
      ensures levels == DetermineLevels(mip, width, height)
      ensures mip == TMML_One ==> levels == 1
    {
      device := Some(dev);
      desc := desc.(format := format);
      levels := DetermineLevels(mip, width, height);
      desc := desc.(width := width, height := height);
    }

    /**
     * ReCreateAndLockSysMemTexture: when no valid system-memory texture is
     * held (sysValid is the resource's own answer), it is released and
     * recreated (createHr, then the lockable wrapper's lockHr); a failure
     * leaves none and nothing locked.  Otherwise, or after recreation, the
     * texture is mapped and marked locked.
     */
    method ReCreateAndLockSysMemTexture(sysValid: bool, createHr: HRESULT, lockableHr: HRESULT, created: nat)
      returns (hr: HRESULT)
      requires Valid() && HasRealizationParameters() && !locked
      modifies this`sysMem, this`locked
      ensures Valid()
      ensures old(sysMem).Some? && sysValid ==> hr == S_OK && locked && sysMem == old(sysMem)
      ensures !(old(sysMem).Some? && sysValid) ==>
        && (Failed(createHr) ==> hr == createHr && sysMem.None? && !locked)
        && (Succeeded(createHr) && Failed(lockableHr) ==> hr == lockableHr && sysMem.None? && !locked)
        && (Succeeded(createHr) && Succeeded(lockableHr) ==> hr == S_OK && sysMem == Some(created) && locked)
      ensures locked <==> Succeeded(hr)
    {
      hr := S_OK;
      if !(sysMem.Some? && sysValid) {
        sysMem := None;
        hr := createHr;
        if Failed(hr) {
          return;
        }
        hr := lockableHr;
        if Failed(hr) {
          return;
        }
        sysMem := Some(created);
        hr := S_OK;
      }
      locked := true;
    }

    /** UnlockSysMemTexture: on a valid, locked texture; clears the lock. */
    method UnlockSysMemTexture(sysValid: bool) returns (hr: HRESULT)
      requires Valid() && sysMem.Some? && sysValid && locked
      modifies this`locked
      ensures Valid() && !locked && hr == S_OK
    {
      locked := false;
      hr := S_OK;
    }

    /**
     * PushBitsToVidMemTexture: an invalid video-memory texture is dropped;
     * an absent one is created (createHr); then the bits are copied from
     * the system-memory texture and the mip levels updated (mipHr).
     */
    method PushBitsToVidMemTexture(sysValid: bool, vidValid: bool, createHr: HRESULT, created: nat, mipHr: HRESULT)
      returns (hr: HRESULT)
      requires Valid() && HasRealizationParameters() && sysMem.Some? && sysValid
      modifies this`vidMem, this`pushes
      ensures Valid()
      ensures old(vidMem).Some? && vidValid ==>
        hr == mipHr && vidMem == old(vidMem) && pushes == old(pushes) + [(sysMem.value, vidMem.value)]
      ensures !(old(vidMem).Some? && vidValid) && Failed(createHr) ==>
        hr == createHr && vidMem.None? && pushes == old(pushes)
      ensures !(old(vidMem).Some? && vidValid) && Succeeded(createHr) ==>
        hr == mipHr && vidMem == Some(created) && pushes == old(pushes) + [(sysMem.value, created)]
    {
      if vidMem.Some? && !vidValid {
        vidMem := None;
      }
      if vidMem.None? {
        hr := createHr;
        if Failed(hr) {
          return;
        }
        vidMem := Some(created);
      }
      pushes := pushes + [(sysMem.value, vidMem.value)];
      hr := mipHr;
    }

    /** GetVidMemTextureNoRef: the video-memory texture only while it is valid. */
    function GetVidMemTextureNoRef(vidValid: bool): (t: Option<nat>)
      reads this
      ensures t.Some? <==> vidMem.Some? && vidValid
      ensures t.Some? ==> t == vidMem
    {
      if vidMem.Some? && vidValid then vidMem else None
    }
  }

  /**
   * One update cycle from fresh parameters: recreate and lock, unlock,
   * push.  When every call succeeds the pushed pair is the new textures
   * and the manager is left unlocked.
   */
  method UpdateCycle(m: VidMemTextureManager, sysHandle: nat, vidHandle: nat) returns (hr: HRESULT)
    requires m.Valid() && m.HasRealizationParameters() && !m.locked && m.sysMem.None? && m.vidMem.None?
    modifies m`sysMem, m`locked, m`vidMem, m`pushes
    ensures hr == S_OK && m.Valid() && !m.locked
    ensures m.sysMem == Some(sysHandle) && m.vidMem == Some(vidHandle)
    ensures m.pushes == old(m.pushes) + [(sysHandle, vidHandle)]
  {
    hr := m.ReCreateAndLockSysMemTexture(false, S_OK, S_OK, sysHandle);
    hr := m.UnlockSysMemTexture(true);
    hr := m.PushBitsToVidMemTexture(true, false, S_OK, vidHandle, S_OK);
  }
}
