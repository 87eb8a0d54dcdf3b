/** The latch reaper (CHECK_LATCH) and the compare-and-swap it relies on.
    A latch word records the owning process id (0 = available) and, on platforms
    that reuse process ids, an image count. All latches of the shared memory live
    in one arena, `latches`, addressed by index. */
module Latches {

  import opened Arena

  datatype Owner = Owner(pid: nat, imageCount: nat)

  /** What the routine cannot see but depends on: which processes are alive
      (is_proc_alive), and for each latch what another live process writes into it,
      if anything, between the liveness check and the compare-and-swap. */
  datatype World = World(alive: nat -> bool, racer: nat -> Option<Owner>)

  /** LOCK_AVAILABLE: pid 0, image count 0. */
  const Available := Owner(0, 0)

  /** The owner CHECK_LATCH leaves in a latch that held `before`.
      `race` is a write by another live process landing between the liveness check
      and the compare-and-swap (None: no such write). */
  function Reaped(before: Owner, self: nat, isExiting: bool, alive: nat -> bool, race: Option<Owner>): Owner
  {
    if before.pid == self then
      (if isExiting then Available else before)
    else if before.pid != 0 && !alive(before.pid) then
      // COMPSWAP_UNLOCK is keyed on the dead pid and on the image count read just before it
      var seen := if race.Some? then race.value else before;
      if seen.pid == before.pid then Available else seen
    else
      before
  }

  /** Compare-and-swap on a latch word: replaces it only if it still holds `expected`. */
  method CompareAndSwap(latches: array<Owner>, x: nat, expected: Owner, replacement: Owner) returns (swapped: bool)
    requires x < latches.Length
    modifies latches
    ensures swapped <==> old(latches[x]) == expected
    ensures latches[..] == if swapped then old(latches[..])[x := replacement] else old(latches[..])
  {
    swapped := latches[x] == expected;
    if swapped {
      latches[x] := replacement;
    }
  }

  /** CHECK_LATCH(X, is_exiting): frees the latch when this exiting process owns it,
      or, with a compare-and-swap keyed on the owner seen, when its owner is dead. */
  method CheckLatch(latches: array<Owner>, x: nat, self: nat, isExiting: bool, w: World)
    requires x < latches.Length
    requires self != 0
    modifies latches
    ensures latches[..] == old(latches[..])[x := Reaped(old(latches[x]), self, isExiting, w.alive, w.racer(x))]
  {
    var pid := latches[x].pid;
    if pid == self {
      if isExiting {
        latches[x] := Available;   // SET_LATCH_GLOBAL(X, LOCK_AVAILABLE)
      }
    } else if pid != 0 && !w.alive(pid) {
      if w.racer(x).Some? {
        latches[x] := w.racer(x).value;  // another process writes the latch in the window
      }
      var _ := CompareAndSwap(latches, x, Owner(pid, latches[x].imageCount), Available);
    }
  }

  /** A latch this exiting process owns is freed; when it is not exiting the latch is kept. */
  lemma ReapOwnLatch(before: Owner, self: nat, isExiting: bool, alive: nat -> bool, race: Option<Owner>)
    requires before.pid == self
    ensures Reaped(before, self, isExiting, alive, race) == (if isExiting then Available else before)
  {
  }

  /** A latch whose owner is another, dead process is freed when nobody races for it. */
  lemma ReapDeadOwner(before: Owner, self: nat, isExiting: bool, alive: nat -> bool)
    requires before.pid != self && before.pid != 0 && !alive(before.pid)
    ensures Reaped(before, self, isExiting, alive, None) == Available
  {
  }

  /** A third process that acquires the latch between the liveness check and the
      compare-and-swap keeps it: the swap is keyed on the dead owner's pid. */
  lemma ReapLosesRaceToThirdProcess(before: Owner, self: nat, isExiting: bool, alive: nat -> bool, third: Owner)
    requires before.pid != self && before.pid != 0 && !alive(before.pid)
    requires third.pid != before.pid
    ensures Reaped(before, self, isExiting, alive, Some(third)) == third
  {
  }

  /** The reaper never touches a latch that is free or held by another live process. */
  lemma ReapKeepsLiveOwner(before: Owner, self: nat, isExiting: bool, alive: nat -> bool, race: Option<Owner>)
    requires before.pid != self
    requires before.pid == 0 || alive(before.pid)
    ensures Reaped(before, self, isExiting, alive, race) == before
  {
  }

  /** Whatever happens, the reaper only ever frees the latch or leaves what it found
      (or what the racing process wrote); it never makes this process the owner. */
  lemma ReapNeverTakesOwnership(before: Owner, self: nat, isExiting: bool, alive: nat -> bool, race: Option<Owner>)
    requires self != 0 && before.pid != self
    requires race.Some? ==> race.value.pid != self
    ensures Reaped(before, self, isExiting, alive, race).pid != self
  {
  }

  /** The shared-memory-pool latch (lines 1214-1242): this process's own latch is
      released and the pool marked blocked so that recovery runs; a dead owner's latch
      is first taken over with a compare-and-swap keyed on the dead pid (the image
      count is ignored on this platform), then the pool is marked blocked and the latch
      released. The result is the new latch word and whether the pool was blocked. */
  function ShmpoolReaped(before: Owner, self: nat, isExiting: bool, alive: nat -> bool, race: Option<Owner>): (Owner, bool)
  {
    if before.pid == self then
      (if isExiting then (Available, true) else (before, false))
    else if before.pid != 0 && !alive(before.pid) then
      var seen := if race.Some? then race.value else before;
      if seen.pid == before.pid then (Available, true) else (seen, false)
    else
      (before, false)
  }

  method ReapShmpoolLatch(latches: array<Owner>, x: nat, self: nat, selfImage: nat, isExiting: bool, w: World)
      returns (blocked: bool)
    requires x < latches.Length
    requires self != 0
    modifies latches
    ensures (latches[x], blocked) == ShmpoolReaped(old(latches[x]), self, isExiting, w.alive, w.racer(x))
    ensures latches[..] == old(latches[..])[x := latches[x]]
  {
    blocked := false;
    var pid := latches[x].pid;
    if pid == self {
      if isExiting {
        blocked := true;
        latches[x] := Available;
      }
    } else if pid != 0 && !w.alive(pid) {
      if w.racer(x).Some? {
        latches[x] := w.racer(x).value;
      }
      var locked := CompareAndSwap(latches, x, Owner(pid, latches[x].imageCount), Owner(self, selfImage));
      if locked {
        blocked := true;
        var _ := CompareAndSwap(latches, x, Owner(self, selfImage), Available);
      }
    }
  }

  /** For a latch held on entry, the pool latch ends free exactly when the pool is
      marked blocked. */
  lemma ShmpoolBlockedIffFreed(before: Owner, self: nat, isExiting: bool, alive: nat -> bool, race: Option<Owner>)
    requires self != 0 && (race.Some? ==> race.value.pid != 0)
    requires before.pid != 0
    ensures var (after, blocked) := ShmpoolReaped(before, self, isExiting, alive, race);
            blocked <==> after == Available
  {
  }
}
