/**
 * The view-transition engine of the `useViewSwitcher` hook.
 *
 * One object holds what the hook keeps in its state and refs (current view, leaving
 * view, transition lock, list of timer handles) together with the part of the browser
 * the hook drives: the address-bar fragment, the entries pushed onto the session
 * history, and the runtime's queue of timers that are neither fired nor cleared.
 * Each timer callback is a step method (FirePhase1, FirePhase2) that may run only
 * while its timer is still queued.
 */
module Switcher {
  import opened Wrappers
  import opened Registry

  /** A handle returned by `setTimeout`. */
  type TimerHandle = nat

  /**
   * Where the engine stands in a transition. `phase` is not a variable of the hook;
   * it names which of the two timer callbacks is queued, and `Leaving` keeps the
   * target that the phase-1 callback closes over.
   */
  datatype Phase = Idle | Leaving(target: View) | Entering

  class ViewSwitcher {
    /** The identifiers a hash change may name. */
    const registry: seq<View>
    /** Whether `history.pushState` exists in the hosting browser. */
    const pushStateAvailable: bool

    /** `currentView` and `currentViewRef.current`, which always agree. */
    var current: View
    /** `leavingView`; None for `null`. */
    var leaving: Option<View>
    /** `isTransitioningRef.current` and `isTransitioning`. */
    var locked: bool
    var phase: Phase
    /** `window.location.hash`, with its leading '#'. */
    var locationHash: string
    /** Fragments pushed onto the session history by this engine, oldest first. */
    var history: seq<string>
    /** `timerRefs.current`: every handle the engine scheduled, in order; never shrinks. */
    var timerRefs: seq<TimerHandle>
    /** The runtime's queue: handle of each timer still due, with its delay. */
    var pending: map<TimerHandle, nat>
    /** The next handle `setTimeout` will return. */
    var nextHandle: TimerHandle
    /** Whether the hosting component has unmounted. */
    var disposed: bool

    ghost predicate Valid()
      reads this
    {
      && (forall k :: 0 <= k < |timerRefs| ==> timerRefs[k] < nextHandle)
      && (forall h :: h in pending ==> h in timerRefs)
      && (disposed ==> pending == map[])
      && (!disposed && phase.Idle? ==> pending == map[])
      && (!disposed && !phase.Idle? ==>
            |timerRefs| > 0 && pending == map[timerRefs[|timerRefs| - 1] := TRANSITION_DURATION])
      && (locked <==> !phase.Idle?)
      && (phase.Leaving? ==> leaving == Some(current) && phase.target != current)
      && (!phase.Leaving? ==> leaving == None)
    }

    /** The timer scheduled last is still queued, so its callback may run. */
    predicate Due()
      reads this
    {
      |timerRefs| > 0 && timerRefs[|timerRefs| - 1] in pending
    }

    /**
     * What a `switchView(view)` call does: it is accepted exactly when the view differs
     * from the current one and no transition holds the lock. An accepted call takes the
     * lock, marks the current view as leaving (which stays current) and schedules
     * exactly one timer, for the exit phase; a rejected call changes nothing.
     */
    twostate predicate SwitchOutcome(view: View, accepted: bool)
      reads this
    {
      && accepted == (view != old(current) && !old(locked))
      && current == old(current)
      && history == old(history)
      && disposed == old(disposed)
      && (if accepted then
            && leaving == Some(old(current))
            && locked
            && phase == Leaving(view)
            && timerRefs == old(timerRefs) + [old(nextHandle)]
            && pending == map[old(nextHandle) := TRANSITION_DURATION]
            && nextHandle == old(nextHandle) + 1
          else
            && leaving == old(leaving)
            && locked == old(locked)
            && phase == old(phase)
            && timerRefs == old(timerRefs)
            && pending == old(pending)
            && nextHandle == old(nextHandle))
    }

    /** Mounting the hook: the first view comes from the address bar, without a transition. */
    constructor (registry: seq<View>, initialHash: string, pushStateAvailable: bool)
      ensures Valid()
      ensures this.registry == registry && this.pushStateAvailable == pushStateAvailable
      ensures current == InitialView(registry, initialHash)
      ensures leaving == None && !locked && phase == Idle
      ensures locationHash == initialHash && history == []
      ensures timerRefs == [] && pending == map[] && !disposed
    {
      this.registry := registry;
      this.pushStateAvailable := pushStateAvailable;
      current := InitialView(registry, initialHash);
      leaving := None;
      locked := false;
      phase := Idle;
      locationHash := initialHash;
      history := [];
      timerRefs := [];
      pending := map[];
      nextHandle := 1;
      disposed := false;
    }

    /** `setTimeout(callback, delay)`: the runtime queues a timer under a fresh handle. */
    method SetTimeout(delay: nat) returns (handle: TimerHandle)
      modifies this`pending, this`nextHandle
      ensures handle == old(nextHandle) && nextHandle == handle + 1
      ensures pending == old(pending)[handle := delay]
    {
      handle := nextHandle;
      nextHandle := nextHandle + 1;
      pending := pending[handle := delay];
    }

    /** `clearTimeout(handle)`: the runtime drops the timer if it is still queued. */
    method ClearTimeout(handle: TimerHandle)
      modifies this`pending
      ensures pending == old(pending) - {handle}
    {
      pending := pending - {handle};
    }

    /** `switchView(view)`. */
    method SwitchView(view: View) returns (accepted: bool)
      requires Valid() && !disposed
      modifies this
      ensures Valid()
      ensures SwitchOutcome(view, accepted)
      ensures locationHash == old(locationHash)
    {
      if current == view {
        return false;
      }
      if locked {
        return false;
      }
      locked := true;
      var leavingName := current;
      leaving := Some(leavingName);
      phase := Leaving(view);
      var t1 := SetTimeout(TRANSITION_DURATION);
      timerRefs := timerRefs + [t1];
      accepted := true;
    }

    /**
     * The exit-phase timer fires: the target becomes current and nothing is leaving,
     * the fragment `#target` is published (a new history entry, or a plain assignment
     * of `location.hash` when `pushState` is missing; the browser raises `hashchange`
     * for that assignment only when it changes the fragment), and the enter-phase
     * timer is scheduled. The lock stays held.
     */
    method FirePhase1() returns (hashChangeRaised: bool)
      requires Valid() && phase.Leaving? && Due()
      modifies this
      ensures Valid()
      ensures current == old(phase).target && leaving == None
      ensures locked && phase == Entering
      ensures locationHash == ToHash(current)
      ensures history == if pushStateAvailable then old(history) + [ToHash(current)] else old(history)
      ensures hashChangeRaised == (!pushStateAvailable && old(locationHash) != ToHash(current))
      ensures timerRefs == old(timerRefs) + [old(nextHandle)] && nextHandle == old(nextHandle) + 1
      ensures pending == map[old(nextHandle) := TRANSITION_DURATION]
      ensures disposed == old(disposed)
    {
      var viewName := phase.target;
      pending := pending - {timerRefs[|timerRefs| - 1]};
      leaving := None;
      current := viewName;
      if pushStateAvailable {
        history := history + [ToHash(viewName)];
        locationHash := ToHash(viewName);
        hashChangeRaised := false;
      } else {
        hashChangeRaised := locationHash != ToHash(viewName);
        locationHash := ToHash(viewName);
      }
      phase := Entering;
      var t2 := SetTimeout(TRANSITION_DURATION);
      timerRefs := timerRefs + [t2];
    }

    /** The enter-phase timer fires: the lock is released and nothing else changes. */
    method FirePhase2()
      requires Valid() && phase.Entering? && Due()
      modifies this
      ensures Valid()
      ensures !locked && phase == Idle && pending == map[]
      ensures current == old(current) && leaving == old(leaving) == None
      ensures locationHash == old(locationHash) && history == old(history)
      ensures timerRefs == old(timerRefs) && nextHandle == old(nextHandle)
      ensures disposed == old(disposed)
    {
      pending := pending - {timerRefs[|timerRefs| - 1]};
      locked := false;
      phase := Idle;
    }

    /**
     * The browser moved the address bar to `hash` and raised `hashchange`: a fragment
     * naming a registry view is handled exactly as `switchView` of that view; any
     * other fragment, the empty one included, is ignored.
     */
    method OnHashChange(hash: string) returns (accepted: bool)
      requires Valid() && !disposed
      modifies this
      ensures Valid()
      ensures locationHash == hash
      ensures HashFragment(hash) in registry ==> SwitchOutcome(HashFragment(hash), accepted)
      ensures HashFragment(hash) !in registry ==>
        && !accepted
        && current == old(current) && leaving == old(leaving) && locked == old(locked)
        && phase == old(phase) && history == old(history) && timerRefs == old(timerRefs)
        && pending == old(pending) && nextHandle == old(nextHandle) && disposed == old(disposed)
    {
      locationHash := hash;
      var fragment := HashFragment(hash);
      if IsValidView(registry, fragment) {
        accepted := SwitchView(fragment);
      } else {
        accepted := false;
      }
    }

    /** Unmount: every recorded timer is cleared, so no phase callback can run afterwards. */
    method Dispose()
      requires Valid()
      modifies this
      ensures Valid() && disposed && pending == map[] && !Due()
      ensures current == old(current) && leaving == old(leaving) && locked == old(locked)
      ensures phase == old(phase) && locationHash == old(locationHash) && history == old(history)
      ensures timerRefs == old(timerRefs) && nextHandle == old(nextHandle)
    {
      var timers := timerRefs;
      var i := 0;
      while i < |timers|
        invariant 0 <= i <= |timers|
        invariant pending == old(pending) - (set h | h in timers[..i])
        modifies this`pending
      {
        assert timers[..i + 1] == timers[..i] + [timers[i]];
        ClearTimeout(timers[i]);
        i := i + 1;
      }
      assert timers[..i] == timers;
      disposed := true;
    }
  }

  /**
   * Publishing never loops back: when phase 1 publishes by assigning `location.hash`,
   * the `hashchange` the browser raises names the view that is already current, so
   * the handler accepts nothing and schedules nothing beyond the enter-phase timer.
   */
  method PublishThenEcho(sw: ViewSwitcher) returns (accepted: bool)
    requires sw.Valid() && sw.phase.Leaving? && sw.Due()
    modifies sw
    ensures sw.Valid() && !accepted
    ensures sw.current == old(sw.phase).target && sw.leaving == None
    ensures sw.phase == Entering && sw.locked
    ensures sw.locationHash == ToHash(sw.current)
    ensures sw.timerRefs == old(sw.timerRefs) + [old(sw.nextHandle)]
    ensures sw.pending == map[old(sw.nextHandle) := TRANSITION_DURATION]
  {
    var raised := sw.FirePhase1();
    accepted := false;
    if raised {
      FragmentOfPublishedHash(sw.current);
      accepted := sw.OnHashChange(sw.locationHash);
    }
  }
}
