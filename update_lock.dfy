/**
 * The keyed update lock shared by both previews (`ExportPreview.lock_update`
 * in export_layers/gui_previews.py).
 *
 * The lock is a boolean `updateLocked` and a set of caller-chosen keys. A call
 * without a key empties the key set and sets the flag outright; a call with a
 * key adds or (when present) removes that key and then recomputes the flag as
 * "some key is still held".
 */
module UpdateLocking {
  import opened Wrappers

  /** A caller-chosen token; any hashable value in the source, strings in practice. */
  type LockKey = string

  /** The abstract state of the lock: the flag and the keys currently held. */
  datatype LockState = LockState(locked: bool, keys: set<LockKey>)

  /** One call `lock_update(lock, key)`; `key == None` is the unkeyed form. */
  datatype LockCall = LockCall(lock: bool, key: Option<LockKey>)

  /** The state of a freshly constructed preview. */
  const Unlocked := LockState(false, {})

  /** A held key always keeps the preview locked. */
  predicate Consistent(s: LockState) {
    s.keys != {} ==> s.locked
  }

  /** The effect of one `lock_update` call on the lock state. */
  function LockStep(s: LockState, c: LockCall): (r: LockState)
    ensures Consistent(r)
    ensures c.key.None? ==> r.keys == {} && r.locked == c.lock
    ensures c.key.Some? ==> (r.locked <==> r.keys != {})
    ensures c.key.Some? ==> (c.key.value in r.keys <==> c.lock)
    ensures c.key.Some? ==> r.keys - {c.key.value} == s.keys - {c.key.value}
  {
    match c.key
    case None => LockState(c.lock, {})
    case Some(k) =>
      var keys :=
        if c.lock then s.keys + {k}
        else if k in s.keys then s.keys - {k}
        else s.keys;
      LockState(keys != {}, keys)
  }

  /** The state after a sequence of calls, oldest first. */
  function Run(s: LockState, calls: seq<LockCall>): LockState
    decreases |calls|
  {
    if calls == [] then s else LockStep(Run(s, calls[..|calls| - 1]), calls[|calls| - 1])
  }

  /** The lock flag of the last keyed call on `k` in `calls`, if any. */
  function LastCallOn(calls: seq<LockCall>, k: LockKey): (r: Option<bool>)
    ensures r.Some? <==> exists i :: 0 <= i < |calls| && calls[i].key == Some(k)
    decreases |calls|
  {
    if calls == [] then None
    else if calls[|calls| - 1].key == Some(k) then Some(calls[|calls| - 1].lock)
    else LastCallOn(calls[..|calls| - 1], k)
  }

  /** Every call in `calls` names a key. */
  predicate AllKeyed(calls: seq<LockCall>) {
    forall i :: 0 <= i < |calls| ==> calls[i].key.Some?
  }

  /**
   * Keyed calls act on each key independently: after any sequence of keyed
   * calls a key is held exactly when the last call naming it locked (or, if
   * no call named it, when it was held before), and the preview is locked
   * exactly when some key is held.
   */
  lemma {:induction false} KeyedRunHoldsKeys(s: LockState, calls: seq<LockCall>, k: LockKey)
    requires AllKeyed(calls)
    ensures k in Run(s, calls).keys <==>
              match LastCallOn(calls, k)
              case None => k in s.keys
              case Some(lock) => lock
    ensures calls != [] ==> (Run(s, calls).locked <==> Run(s, calls).keys != {})
    decreases |calls|
  {
    if calls != [] {
      var prefix := calls[..|calls| - 1];
      assert AllKeyed(prefix) by {
        forall i | 0 <= i < |prefix| ensures prefix[i].key.Some? {
          assert prefix[i] == calls[i];
        }
      }
      KeyedRunHoldsKeys(s, prefix, k);
    }
  }

  /**
   * `lock(k1), lock(k2), unlock(k1)`: the preview stays locked while any key
   * locked after the last unkeyed call has not been released.
   */
  lemma HeldKeyKeepsLock(s: LockState, calls: seq<LockCall>, i: nat, k: LockKey)
    requires i < |calls| && calls[i] == LockCall(true, Some(k))
    requires forall j :: i < j < |calls| ==> calls[j].key.Some? && calls[j] != LockCall(false, Some(k))
    ensures k in Run(s, calls).keys && Run(s, calls).locked
  {
    var tail := calls[i..];
    assert AllKeyed(tail) by {
      forall j | 0 <= j < |tail| ensures tail[j].key.Some? {
        assert tail[j] == calls[i + j];
      }
    }
    assert LastCallOn(tail, k) == Some(true) by {
      LastLockOnHeld(tail, k);
    }
    RunSplit(s, calls, i);
    KeyedRunHoldsKeys(Run(s, calls[..i]), tail, k);
  }

  /** A sequence that starts with `lock(k)` and never unlocks `k` ends with `k` locked. */
  lemma {:induction false} LastLockOnHeld(calls: seq<LockCall>, k: LockKey)
    requires |calls| > 0 && calls[0] == LockCall(true, Some(k))
    requires forall j :: 0 < j < |calls| ==> calls[j] != LockCall(false, Some(k))
    ensures LastCallOn(calls, k) == Some(true)
    decreases |calls|
  {
    if |calls| > 1 {
      var prefix := calls[..|calls| - 1];
      assert prefix[0] == calls[0];
      forall j | 0 < j < |prefix| ensures prefix[j] != LockCall(false, Some(k)) {
        assert prefix[j] == calls[j];
      }
      LastLockOnHeld(prefix, k);
    }
  }

  /** Running a sequence is running its prefix and then its suffix. */
  lemma {:induction false} RunSplit(s: LockState, calls: seq<LockCall>, i: nat)
    requires i <= |calls|
    ensures Run(s, calls) == Run(Run(s, calls[..i]), calls[i..])
    decreases |calls|
  {
    if i == |calls| {
      assert calls[..i] == calls;
      assert calls[i..] == [];
    } else {
      var prefix := calls[..|calls| - 1];
      RunSplit(s, prefix, i);
      assert prefix[..i] == calls[..i];
      assert calls[i..][..|calls[i..]| - 1] == prefix[i..];
      assert calls[i..][|calls[i..]| - 1] == calls[|calls| - 1];
    }
  }

  /**
   * The code, not the docstring: a keyed unlock whose key was never used
   * still recomputes the flag, so it lifts an earlier unconditional lock.
   */
  lemma KeyedUnlockLiftsUnconditionalLock(s: LockState, k: LockKey)
    requires s == LockStep(Unlocked, LockCall(true, None))
    ensures k !in s.keys && s.locked
    ensures LockStep(s, LockCall(false, Some(k))) == Unlocked
  {
  }

  /** The unkeyed unlock always releases every keyed lock. */
  lemma UnkeyedUnlockReleasesAll(s: LockState, calls: seq<LockCall>)
    requires |calls| > 0 && calls[|calls| - 1] == LockCall(false, None)
    ensures Run(s, calls) == Unlocked
  {
  }

  /**
   * `ExportPreview`'s lock fields. Each preview holds one of these as its
   * `gate`, in place of inheriting the fields.
   */
  class UpdateLock {
    var updateLocked: bool
    var lockKeys: set<LockKey>

    function State(): LockState
      reads this
    {
      LockState(updateLocked, lockKeys)
    }

    constructor ()
      ensures State() == Unlocked
    {
      updateLocked := false;
      lockKeys := {};
    }

    /** `lock_update(lock, key)`. */
    method LockUpdate(lock: bool, key: Option<LockKey>)
      modifies this
      ensures State() == LockStep(old(State()), LockCall(lock, key))
      ensures Consistent(State())
    {
      if key.None? {
        lockKeys := {};
        updateLocked := lock;
      } else {
        if lock {
          lockKeys := lockKeys + {key.value};
        } else if key.value in lockKeys {
          lockKeys := lockKeys - {key.value};
        }
        updateLocked := lockKeys != {};
      }
    }
  }
}
