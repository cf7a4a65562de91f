/**
 Unlocking accounts: the `unlocked` map, the goroutines that expire entries, and explicit locking.
 Every action that the manager performs under its mutex, or while waiting on a channel or a timer, is
 one step; a run is any sequence of steps by any number of callers and goroutines.
 */
module Accounts {

  type Address = nat

  /** One `unlocked` record: the decrypted key it holds and its abort channel. A record that was
      unlocked indefinitely has no channel. `closes` counts how often the channel was closed. */
  datatype Record = Record(addr: Address, zeroed: bool, timed: bool, closes: nat)

  /** An `expire` call: waiting for its timer or for the abort channel, past its timer and about to
      take the mutex, or returned. `byLock` tells a call made by `Lock` from a timer goroutine. */
  datatype Expiry =
    | Waiting(addr: Address, id: nat, byLock: bool)
    | Fired(addr: Address, id: nat, byLock: bool)
    | Returned

  /** Records are identified by their position, as heap objects are by their address. */
  datatype Manager = Manager(records: seq<Record>, unlocked: map<Address, nat>, expiries: seq<Expiry>)

  datatype Step =
    | TimedUnlock(addr: Address, timed: bool)  // with the right passphrase; `timed` if the timeout is positive
    | Lock(addr: Address)                      // the lookup under the mutex, which then calls `expire`
    | Abort(e: nat)                            // expiry `e` sees its abort channel closed
    | Fire(e: nat)                             // the timer of expiry `e` fires
    | Drop(e: nat)                             // expiry `e` takes the mutex

  const START := Manager([], map[], [])

  function NewRecord(s: Manager, addr: Address, timed: bool): Manager {
    var id := |s.records|;
    Manager(
      s.records + [Record(addr, false, timed, 0)],
      s.unlocked[addr := id],
      if timed then s.expiries + [Waiting(addr, id, false)] else s.expiries)
  }

  function CloseAbort(s: Manager, id: nat): Manager
    requires id < |s.records|
  {
    s.(records := s.records[id := s.records[id].(closes := s.records[id].closes + 1)])
  }

  function Next(s: Manager, step: Step): Manager {
    match step
    case TimedUnlock(addr, timed) =>
      if addr in s.unlocked && s.unlocked[addr] < |s.records| then
        var id := s.unlocked[addr];
        if !s.records[id].timed then s  // unlocked indefinitely: the new key is zeroed and forgotten
        else NewRecord(CloseAbort(s, id), addr, timed)
      else NewRecord(s, addr, timed)
    case Lock(addr) =>
      if addr in s.unlocked then s.(expiries := s.expiries + [Waiting(addr, s.unlocked[addr], true)]) else s
    case Abort(e) =>
      if e < |s.expiries| && s.expiries[e].Waiting? && s.expiries[e].id < |s.records|
         && s.records[s.expiries[e].id].timed && s.records[s.expiries[e].id].closes > 0
      then s.(expiries := s.expiries[e := Returned]) else s
    case Fire(e) =>
      if e < |s.expiries| && s.expiries[e].Waiting?
      then s.(expiries := s.expiries[e := Fired(s.expiries[e].addr, s.expiries[e].id, s.expiries[e].byLock)]) else s
    case Drop(e) =>
      if e < |s.expiries| && s.expiries[e].Fired? then
        var x := s.expiries[e];
        var s' := s.(expiries := s.expiries[e := Returned]);
        if x.addr in s.unlocked && s.unlocked[x.addr] == x.id && x.id < |s.records|
        then s'.(records := s.records[x.id := s.records[x.id].(zeroed := true)], unlocked := s.unlocked - {x.addr})
        else s'
      else s
  }

  function Run(s: Manager, steps: seq<Step>): Manager
    decreases |steps|
  {
    if steps == [] then s else Next(Run(s, steps[..|steps| - 1]), steps[|steps| - 1])
  }

  // ----- the invariant -----

  predicate Active(x: Expiry, id: nat) {
    !x.Returned? && x.id == id
  }

  ghost predicate Mapped(s: Manager, id: nat) {
    exists a :: a in s.unlocked && s.unlocked[a] == id
  }

  /** An entry of the map: a live key of the right address, its abort channel open; and if it is timed,
      its own timer is still running. */
  ghost predicate EntryOk(s: Manager, a: Address)
    requires a in s.unlocked
  {
    var id := s.unlocked[a];
    && id < |s.records|
    && s.records[id].addr == a && !s.records[id].zeroed && s.records[id].closes == 0
    && (s.records[id].timed ==> exists e :: 0 <= e < |s.expiries| && Active(s.expiries[e], id) && !s.expiries[e].byLock)
  }

  /** A record outside the map left it in exactly one of two ways: an expiry dropped it and zeroed its
      key, or a later unlock replaced it and closed its channel, once. */
  ghost predicate RecordOk(s: Manager, id: nat)
    requires id < |s.records|
  {
    var r := s.records[id];
    && (r.closes > 0 ==> r.timed)
    && (Mapped(s, id) || (r.zeroed && r.closes == 0) || (!r.zeroed && r.closes == 1))
  }

  ghost predicate ExpiryOk(s: Manager, x: Expiry) {
    x.Returned? || (x.id < |s.records| && s.records[x.id].addr == x.addr && (!x.byLock ==> s.records[x.id].timed))
  }

  ghost predicate Inv(s: Manager) {
    && (forall a :: a in s.unlocked ==> EntryOk(s, a))
    && (forall id :: 0 <= id < |s.records| ==> RecordOk(s, id))
    && (forall e :: 0 <= e < |s.expiries| ==> ExpiryOk(s, s.expiries[e]))
  }

  lemma EntriesKept(s: Manager, s': Manager, a: Address)
    requires a in s.unlocked && EntryOk(s, a) && a in s'.unlocked && s'.unlocked[a] == s.unlocked[a]
    requires |s.records| <= |s'.records| && s'.records[s.unlocked[a]] == s.records[s.unlocked[a]]
    requires |s.expiries| <= |s'.expiries|
    requires forall e :: 0 <= e < |s.expiries| && Active(s.expiries[e], s.unlocked[a]) && !s.expiries[e].byLock ==>
      Active(s'.expiries[e], s.unlocked[a]) && !s'.expiries[e].byLock
    ensures EntryOk(s', a)
  {
  }

  lemma StepKeepsInv(s: Manager, step: Step)
    requires Inv(s)
    ensures Inv(Next(s, step))
  {
    var s' := Next(s, step);
    match step
    case TimedUnlock(addr, timed) =>
      if s' != s {
        UnlockKeepsInv(s, addr, timed);
      }
    case Lock(addr) =>
      if addr in s.unlocked {
        assert EntryOk(s, addr);
        ExpiriesChanged(s, s');
      }
    case Abort(e) =>
      if s' != s {
        assert ExpiryOk(s, s.expiries[e]);
        ExpiriesChanged(s, s');
      }
    case Fire(e) =>
      if s' != s {
        assert ExpiryOk(s, s.expiries[e]);
        ExpiriesChanged(s, s');
      }
    case Drop(e) =>
      if s' != s {
        DropKeepsInv(s, e);
      }
  }

  /** Steps that only move expiries along, keeping those that an entry relies on. */
  lemma ExpiriesChanged(s: Manager, s': Manager)
    requires Inv(s) && s'.records == s.records && s'.unlocked == s.unlocked && |s.expiries| <= |s'.expiries|
    requires forall e :: 0 <= e < |s'.expiries| ==> ExpiryOk(s', s'.expiries[e])
    requires forall e :: 0 <= e < |s.expiries| && !s.expiries[e].Returned? && Mapped(s, s.expiries[e].id) ==>
      Active(s'.expiries[e], s.expiries[e].id) && s'.expiries[e].byLock == s.expiries[e].byLock
    ensures Inv(s')
  {
    forall a | a in s'.unlocked
      ensures EntryOk(s', a)
    {
      assert EntryOk(s, a);
      EntriesKept(s, s', a);
    }
    forall id | 0 <= id < |s'.records|
      ensures RecordOk(s', id)
    {
      assert RecordOk(s, id);
      assert Mapped(s, id) ==> Mapped(s', id);
    }
  }

  lemma UnlockKeepsInv(s: Manager, addr: Address, timed: bool)
    requires Inv(s)
    ensures Inv(Next(s, TimedUnlock(addr, timed)))
  {
    var s' := Next(s, TimedUnlock(addr, timed));
    if s' != s {
      forall a | a in s'.unlocked
        ensures EntryOk(s', a)
      {
        if a == addr {
          assert timed ==> Active(s'.expiries[|s.expiries|], |s.records|);
        } else {
          assert EntryOk(s, a);
          assert addr in s.unlocked ==> EntryOk(s, addr);
          EntriesKept(s, s', a);
        }
      }
      UnlockKeepsRecords(s, addr, timed);
      forall e | 0 <= e < |s'.expiries|
        ensures ExpiryOk(s', s'.expiries[e])
      {
        assert e < |s.expiries| ==> ExpiryOk(s, s.expiries[e]);
      }
    }
  }

  lemma UnlockKeepsRecords(s: Manager, addr: Address, timed: bool)
    requires Inv(s)
    ensures
      var s' := Next(s, TimedUnlock(addr, timed));
      forall id :: 0 <= id < |s'.records| ==> RecordOk(s', id)
  {
    var s' := Next(s, TimedUnlock(addr, timed));
    forall id | 0 <= id < |s'.records|
      ensures RecordOk(s', id)
    {
      if id == |s.records| {
        assert s'.unlocked[addr] == id;
      } else {
        assert RecordOk(s, id);
        if Mapped(s, id) {
          var a :| a in s.unlocked && s.unlocked[a] == id;
          assert EntryOk(s, a);
          assert a != addr ==> s'.unlocked[a] == id;
        }
      }
    }
  }

  lemma DropKeepsInv(s: Manager, e: nat)
    requires Inv(s)
    ensures Inv(Next(s, Drop(e)))
  {
    var s' := Next(s, Drop(e));
    if s' != s {
      var x := s.expiries[e];
      assert ExpiryOk(s, x);
      forall a | a in s'.unlocked
        ensures EntryOk(s', a)
      {
        assert EntryOk(s, a);
        EntriesKept(s, s', a);
      }
      forall id | 0 <= id < |s'.records|
        ensures RecordOk(s', id)
      {
        assert RecordOk(s, id);
        if Mapped(s, id) {
          var a :| a in s.unlocked && s.unlocked[a] == id;
          assert EntryOk(s, a);
          assert a in s'.unlocked ==> s'.unlocked[a] == id;
        }
      }
      forall i | 0 <= i < |s'.expiries|
        ensures ExpiryOk(s', s'.expiries[i])
      {
        assert ExpiryOk(s, s.expiries[i]);
      }
    }
  }

  lemma {:induction false} RunKeepsInv(steps: seq<Step>)
    ensures Inv(Run(START, steps))
    decreases |steps|
  {
    if steps != [] {
      RunKeepsInv(steps[..|steps| - 1]);
      StepKeepsInv(Run(START, steps[..|steps| - 1]), steps[|steps| - 1]);
    }
  }

  // ----- what it means, over every run -----

  /** Signing with an unlocked account never uses a zeroed key or the key of another account, and no
      abort channel is closed twice or closed without existing. */
  lemma UnlockedKeysAreLive(steps: seq<Step>)
    ensures
      var s := Run(START, steps);
      && (forall a :: a in s.unlocked ==>
            s.unlocked[a] < |s.records| && !s.records[s.unlocked[a]].zeroed && s.records[s.unlocked[a]].addr == a)
      && (forall id :: 0 <= id < |s.records| ==>
            s.records[id].closes <= 1 && (s.records[id].closes == 1 ==> s.records[id].timed))
  {
    RunKeepsInv(steps);
    var s := Run(START, steps);
    forall a | a in s.unlocked
      ensures s.unlocked[a] < |s.records| && !s.records[s.unlocked[a]].zeroed && s.records[s.unlocked[a]].addr == a
    {
      assert EntryOk(s, a);
    }
    forall id | 0 <= id < |s.records|
      ensures s.records[id].closes <= 1 && (s.records[id].closes == 1 ==> s.records[id].timed)
    {
      assert RecordOk(s, id);
      if Mapped(s, id) {
        var a :| a in s.unlocked && s.unlocked[a] == id;
        assert EntryOk(s, a);
      }
    }
  }

  predicate Kept(s: Manager, s': Manager, a: Address)
    requires a in s.unlocked
  {
    a in s'.unlocked && s'.unlocked[a] == s.unlocked[a]
  }

  /** The entry of `a` was dropped and its key zeroed, by an expiry that was started for this very
      record; and if the record is indefinite, by one that `Lock` started. */
  predicate DroppedByItsExpiry(s: Manager, s': Manager, step: Step, a: Address)
    requires a in s.unlocked
  {
    var id := s.unlocked[a];
    && step.Drop? && step.e < |s.expiries| && s.expiries[step.e].Fired?
    && s.expiries[step.e].addr == a && s.expiries[step.e].id == id
    && id < |s.records| && (s.records[id].timed || s.expiries[step.e].byLock)
    && a !in s'.unlocked
    && id < |s'.records| && s'.records[id].zeroed
  }

  /** The timed entry of `a` was replaced by a new live record of the kind asked for, and its own channel was
      closed for the first time. */
  predicate Replaced(s: Manager, s': Manager, step: Step, a: Address)
    requires a in s.unlocked
  {
    var id := s.unlocked[a];
    && step.TimedUnlock? && step.addr == a
    && id < |s.records| && s.records[id].timed && s.records[id].closes == 0
    && a in s'.unlocked && s'.unlocked[a] == |s.records|
    && id < |s'.records| && s'.records[id].closes == 1
    && |s'.records| == |s.records| + 1 && s'.records[|s.records|] == Record(a, false, step.timed, 0)
  }

  /** The step is the drop of an expiry that was started for the record `a` maps to. */
  predicate Expires(s: Manager, step: Step, a: Address)
    requires a in s.unlocked
  {
    step.Drop? && step.e < |s.expiries| && s.expiries[step.e].Fired?
    && s.expiries[step.e].addr == a && s.expiries[step.e].id == s.unlocked[a]
  }

  /** After any run, these are the only ways in which a step changes what an address maps to: a drop by
      the expiry started for this very record, always, and a new unlock of a timed entry, always. */
  lemma EntryChanges(steps: seq<Step>, step: Step, a: Address)
    requires a in Run(START, steps).unlocked
    ensures
      var s := Run(START, steps);
      var s' := Next(s, step);
      && (Kept(s, s', a) || DroppedByItsExpiry(s, s', step, a) || Replaced(s, s', step, a))
      && (Expires(s, step, a) ==> DroppedByItsExpiry(s, s', step, a))
      && (step.TimedUnlock? && step.addr == a && s.unlocked[a] < |s.records| && s.records[s.unlocked[a]].timed ==>
            Replaced(s, s', step, a))
  {
    RunKeepsInv(steps);
    var s := Run(START, steps);
    assert EntryOk(s, a);
    if step.Drop? && step.e < |s.expiries| {
      assert ExpiryOk(s, s.expiries[step.e]);
    }
  }

  /** An address gets an entry by being unlocked and in no other way, and it is then a fresh, live one. */
  lemma EntryAppears(steps: seq<Step>, step: Step, a: Address)
    requires a !in Run(START, steps).unlocked
    ensures
      var s := Run(START, steps);
      var s' := Next(s, step);
      && (a in s'.unlocked <==> step.TimedUnlock? && step.addr == a)
      && (a in s'.unlocked ==>
            && s'.unlocked[a] == |s.records| < |s'.records|
            && s'.records[|s.records|] == Record(a, false, step.timed, 0))
  {
  }

  /** A `Lock` that runs undisturbed locks the account and zeroes its key. */
  lemma LockLocks(steps: seq<Step>, a: Address)
    requires a in Run(START, steps).unlocked
    ensures
      var s := Run(START, steps);
      var e := |s.expiries|;
      var s' := Next(Next(Next(s, Lock(a)), Fire(e)), Drop(e));
      && a !in s'.unlocked
      && s.unlocked[a] < |s'.records| && s'.records[s.unlocked[a]].zeroed
      && s'.unlocked == s.unlocked - {a}
  {
    RunKeepsInv(steps);
    assert EntryOk(Run(START, steps), a);
  }

  /** A timed unlock starts one timer, for the record it makes, and an indefinite one starts none; unlocking
      what is unlocked indefinitely changes nothing. */
  lemma UnlockStartsTimer(steps: seq<Step>, a: Address, timed: bool)
    ensures
      var s := Run(START, steps);
      var s' := Next(s, TimedUnlock(a, timed));
      if a in s.unlocked && s.unlocked[a] < |s.records| && !s.records[s.unlocked[a]].timed then s' == s
      else
        && a in s'.unlocked && s'.unlocked[a] == |s.records| == |s'.records| - 1
        && s'.expiries == s.expiries + (if timed then [Waiting(a, |s.records|, false)] else [])
        && s'.unlocked - {a} == s.unlocked - {a}
  {
    RunKeepsInv(steps);
    if a in Run(START, steps).unlocked {
      assert EntryOk(Run(START, steps), a);
    }
  }

  /** When that timer fires undisturbed, it locks exactly this account and zeroes its key. */
  lemma TimerLocks(steps: seq<Step>, a: Address)
    requires
      var s := Run(START, steps);
      a in s.unlocked ==> s.unlocked[a] < |s.records| && s.records[s.unlocked[a]].timed
    ensures
      var s := Run(START, steps);
      var e := |s.expiries|;
      var s' := Next(Next(Next(s, TimedUnlock(a, true)), Fire(e)), Drop(e));
      && s'.unlocked == s.unlocked - {a}
      && |s.records| < |s'.records| && s'.records[|s.records|].zeroed
  {
    UnlockStartsTimer(steps, a, true);
  }

  /** The timer of a replaced record returns without touching anything. */
  lemma ReplacedTimerReturns(steps: seq<Step>, a: Address, timed: bool, e: nat)
    requires
      var s := Run(START, steps);
      && a in s.unlocked && e < |s.expiries| && s.expiries[e].Waiting? && s.expiries[e].id == s.unlocked[a]
      && s.unlocked[a] < |s.records| && s.records[s.unlocked[a]].timed
    ensures
      var s1 := Next(Run(START, steps), TimedUnlock(a, timed));
      var s2 := Next(s1, Abort(e));
      && e < |s1.expiries| && s2.expiries == s1.expiries[e := Returned]
      && s2.records == s1.records && s2.unlocked == s1.unlocked
  {
    EntryChanges(steps, TimedUnlock(a, timed), a);
  }

  /** No `Lock` of this record is under way. */
  predicate NoPendingLock(s: Manager, id: nat) {
    forall e :: 0 <= e < |s.expiries| ==> s.expiries[e].Returned? || s.expiries[e].id != id || !s.expiries[e].byLock
  }

  /** An account that is unlocked indefinitely stays unlocked, with the same key, through every
      continuation in which nobody locks it: no timer and no later timed unlock can end it. */
  lemma {:induction false} IndefiniteUntilLocked(steps: seq<Step>, more: seq<Step>, a: Address)
    requires a in Run(START, steps).unlocked
    requires
      var s := Run(START, steps);
      s.unlocked[a] < |s.records| && !s.records[s.unlocked[a]].timed && NoPendingLock(s, s.unlocked[a])
    requires Lock(a) !in more
    ensures
      var s, s' := Run(START, steps), Run(START, steps + more);
      && a in s'.unlocked && s'.unlocked[a] == s.unlocked[a]
      && s'.unlocked[a] < |s'.records| && !s'.records[s'.unlocked[a]].timed
      && NoPendingLock(s', s'.unlocked[a])
    decreases |more|
  {
    hide Next, Inv;
    if more == [] {
      assert steps + more == steps;
    } else {
      var init, step := more[..|more| - 1], more[|more| - 1];
      IndefiniteUntilLocked(steps, init, a);
      assert steps + more == (steps + init) + [step];
      assert (steps + more)[..|steps + more| - 1] == steps + init;
      EntryChanges(steps + init, step, a);
      RunKeepsInv(steps + init);
      StillIndefinite(Run(START, steps + init), step, a);
    }
  }

  lemma StillIndefinite(s: Manager, step: Step, a: Address)
    requires Inv(s) && a in s.unlocked && s.unlocked[a] < |s.records| && !s.records[s.unlocked[a]].timed
    requires NoPendingLock(s, s.unlocked[a]) && step != Lock(a)
    ensures NoPendingLock(Next(s, step), s.unlocked[a])
    ensures s.unlocked[a] < |Next(s, step).records| && !Next(s, step).records[s.unlocked[a]].timed
  {
    assert EntryOk(s, a);
    if step.Lock? && step.addr in s.unlocked {
      assert EntryOk(s, step.addr);
    }
  }

  /** From the request: after any run in which the account is locked or unlocked for a time, an unlock
      without a timeout makes a record that stays in place, live, through every continuation in which
      nobody locks the account, whatever timers and locks of earlier records are still under way. */
  lemma IndefiniteOnRequest(steps: seq<Step>, more: seq<Step>, a: Address)
    requires
      var s := Run(START, steps);
      a in s.unlocked ==> s.unlocked[a] < |s.records| && s.records[s.unlocked[a]].timed
    requires Lock(a) !in more
    ensures
      var s, s' := Run(START, steps), Run(START, steps + [TimedUnlock(a, false)] + more);
      && a in s'.unlocked && s'.unlocked[a] == |s.records| < |s'.records|
      && !s'.records[|s.records|].zeroed && !s'.records[|s.records|].timed
  {
    var s, asked := Run(START, steps), steps + [TimedUnlock(a, false)];
    assert asked[..|asked| - 1] == steps;
    RunKeepsInv(steps);
    UnlockStartsTimer(steps, a, false);
    FreshRecordHasNoLock(s, a);
    IndefiniteUntilLocked(asked, more, a);
    UnlockedKeysAreLive(asked + more);
  }

  lemma FreshRecordHasNoLock(s: Manager, a: Address)
    requires Inv(s) && (a in s.unlocked ==> s.unlocked[a] < |s.records| && s.records[s.unlocked[a]].timed)
    ensures
      var s' := Next(s, TimedUnlock(a, false));
      && a in s'.unlocked && s'.unlocked[a] == |s.records| < |s'.records|
      && !s'.records[|s.records|].timed && NoPendingLock(s', |s.records|)
  {
    forall e | 0 <= e < |s.expiries|
      ensures s.expiries[e].Returned? || s.expiries[e].id != |s.records|
    {
      assert ExpiryOk(s, s.expiries[e]);
    }
  }
}
