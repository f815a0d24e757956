/**
 * The page: one panel per registry view, each rendered as active, leaving or hidden
 * from the switcher's current and leaving views.
 */
module App {
  import opened Wrappers
  import opened Registry
  import Switcher
  import Navbar

  datatype ViewState = Active | Leaving | Hidden

  /**
   * `getViewState(view)` as the page computes it: the current view is active, the
   * leaving view is leaving unless it is also current, every other view is hidden.
   */
  function GetViewState(currentView: View, leavingView: Option<View>, view: View): (state: ViewState)
    ensures state == Active <==> view == currentView
    ensures state == Leaving <==> view != currentView && leavingView == Some(view)
    ensures state == Hidden <==> view != currentView && leavingView != Some(view)
  {
    if currentView == view then Active
    else if leavingView == Some(view) then Leaving
    else Hidden
  }

  /**
   * The ordering the exit animation needs: the leaving view is leaving even while it
   * is still the current view; otherwise as GetViewState.
   */
  function CorrectedViewState(currentView: View, leavingView: Option<View>, view: View): (state: ViewState)
    ensures state == Leaving <==> leavingView == Some(view)
    ensures state == Active <==> view == currentView && leavingView != Some(view)
    ensures state == Hidden <==> view != currentView && leavingView != Some(view)
  {
    if leavingView == Some(view) then Leaving
    else if currentView == view then Active
    else Hidden
  }

  /** The state of each panel, in registry order. */
  function PanelStates(panels: seq<View>, stateOf: View -> ViewState): (states: seq<ViewState>)
    ensures |states| == |panels|
    ensures forall k :: 0 <= k < |panels| ==> states[k] == stateOf(panels[k])
  {
    if panels == [] then [] else [stateOf(panels[0])] + PanelStates(panels[1..], stateOf)
  }

  /** The panels as the page renders them. */
  function RenderedStates(panels: seq<View>, currentView: View, leavingView: Option<View>): (states: seq<ViewState>)
    ensures |states| == |panels|
    ensures forall k :: 0 <= k < |panels| ==> states[k] == GetViewState(currentView, leavingView, panels[k])
  {
    PanelStates(panels, v => GetViewState(currentView, leavingView, v))
  }

  /** The panels under the corrected ordering. */
  function CorrectedStates(panels: seq<View>, currentView: View, leavingView: Option<View>): seq<ViewState>
  {
    PanelStates(panels, v => CorrectedViewState(currentView, leavingView, v))
  }

  /** When exactly the view `x` is mapped to `state`, as many panels are in `state` as `x` occurs. */
  lemma {:induction false} CountIsOccurrences(panels: seq<View>, stateOf: View -> ViewState, state: ViewState, x: View)
    requires forall p :: stateOf(p) == state <==> p == x
    ensures Occurrences(PanelStates(panels, stateOf), state) == Occurrences(panels, x)
  {
    if panels != [] {
      CountIsOccurrences(panels[1..], stateOf, state, x);
      assert PanelStates(panels, stateOf)[1..] == PanelStates(panels[1..], stateOf);
    }
  }

  /** When no view is mapped to `state`, no panel is in `state`. */
  lemma {:induction false} CountIsZero(panels: seq<View>, stateOf: View -> ViewState, state: ViewState)
    requires forall p :: stateOf(p) != state
    ensures Occurrences(PanelStates(panels, stateOf), state) == 0
  {
    if panels != [] {
      CountIsZero(panels[1..], stateOf, state);
      assert PanelStates(panels, stateOf)[1..] == PanelStates(panels[1..], stateOf);
    }
  }

  /**
   * Over distinct panels the page renders exactly one active panel when the current
   * view is a panel, and at most one leaving panel: the leaving view, when it is a
   * panel other than the current view.
   */
  lemma RenderedCounts(panels: seq<View>, currentView: View, leavingView: Option<View>)
    requires Distinct(panels)
    ensures Occurrences(RenderedStates(panels, currentView, leavingView), Active) ==
      if currentView in panels then 1 else 0
    ensures Occurrences(RenderedStates(panels, currentView, leavingView), Leaving) ==
      if leavingView.Some? && leavingView.value != currentView && leavingView.value in panels then 1 else 0
  {
    var stateOf := v => GetViewState(currentView, leavingView, v);
    CountIsOccurrences(panels, stateOf, Active, currentView);
    OccurrencesInDistinct(panels, currentView);
    if leavingView.Some? && leavingView.value != currentView {
      CountIsOccurrences(panels, stateOf, Leaving, leavingView.value);
      OccurrencesInDistinct(panels, leavingView.value);
    } else {
      CountIsZero(panels, stateOf, Leaving);
    }
  }

  /** The same counts under the corrected ordering: the leaving view takes priority. */
  lemma CorrectedCounts(panels: seq<View>, currentView: View, leavingView: Option<View>)
    requires Distinct(panels)
    ensures Occurrences(CorrectedStates(panels, currentView, leavingView), Active) ==
      if currentView in panels && leavingView != Some(currentView) then 1 else 0
    ensures Occurrences(CorrectedStates(panels, currentView, leavingView), Leaving) ==
      if leavingView.Some? && leavingView.value in panels then 1 else 0
  {
    var stateOf := v => CorrectedViewState(currentView, leavingView, v);
    if leavingView == Some(currentView) {
      CountIsZero(panels, stateOf, Active);
    } else {
      CountIsOccurrences(panels, stateOf, Active, currentView);
      OccurrencesInDistinct(panels, currentView);
    }
    if leavingView.Some? {
      CountIsOccurrences(panels, stateOf, Leaving, leavingView.value);
      OccurrencesInDistinct(panels, leavingView.value);
    } else {
      CountIsZero(panels, stateOf, Leaving);
    }
  }

  /**
   * As written, no state of the switcher renders a leaving panel: during the exit
   * phase the leaving view is still the current view, and the current view takes
   * priority, so the exit state is never rendered. When the current view is a panel,
   * exactly one panel is active.
   */
  lemma LeavingNeverRendered(sw: Switcher.ViewSwitcher)
    requires sw.Valid()
    ensures Occurrences(RenderedStates(sw.registry, sw.current, sw.leaving), Leaving) == 0
    ensures Distinct(sw.registry) && sw.current in sw.registry ==>
      Occurrences(RenderedStates(sw.registry, sw.current, sw.leaving), Active) == 1
  {
    var current, leaving := sw.current, sw.leaving;
    assert leaving == None || leaving == Some(current);
    var stateOf := v => GetViewState(current, leaving, v);
    assert forall p :: stateOf(p) != Leaving;
    CountIsZero(sw.registry, stateOf, Leaving);
    if Distinct(sw.registry) && sw.current in sw.registry {
      RenderedCounts(sw.registry, sw.current, sw.leaving);
    }
  }

  /** The exit phase of a switch from home to portfolio renders home as active, not leaving. */
  lemma ExitPhaseRendersNoLeavingPanel()
    ensures RenderedStates(VALID_VIEWS, "home", Some("home")) == [Active, Hidden, Hidden]
  {
  }

  /**
   * Under the corrected ordering, exactly one panel is active or leaving in every state:
   * during the exit phase the view being left is leaving and none is active; in every
   * other phase the current view is active and none is leaving.
   */
  lemma CorrectedPanelsFollowPhase(sw: Switcher.ViewSwitcher)
    requires sw.Valid() && Distinct(sw.registry) && sw.current in sw.registry
    ensures sw.phase.Leaving? ==>
      && Occurrences(CorrectedStates(sw.registry, sw.current, sw.leaving), Leaving) == 1
      && Occurrences(CorrectedStates(sw.registry, sw.current, sw.leaving), Active) == 0
      && CorrectedViewState(sw.current, sw.leaving, sw.current) == Leaving
      && CorrectedViewState(sw.current, sw.leaving, sw.phase.target) == Hidden
    ensures !sw.phase.Leaving? ==>
      && Occurrences(CorrectedStates(sw.registry, sw.current, sw.leaving), Active) == 1
      && Occurrences(CorrectedStates(sw.registry, sw.current, sw.leaving), Leaving) == 0
  {
    CorrectedCounts(sw.registry, sw.current, sw.leaving);
  }

  /**
   * The page wires the bar's six items to a switcher built on VALID_VIEWS: every item
   * after the first names a view outside that registry, and once such a view is
   * current no panel is active.
   */
  lemma NavbarViewsOutsideRegistry()
    ensures Navbar.NAV_ITEMS[0].view in VALID_VIEWS
    ensures forall k :: 1 <= k < |Navbar.NAV_ITEMS| ==> Navbar.NAV_ITEMS[k].view !in VALID_VIEWS
    ensures Occurrences(RenderedStates(VALID_VIEWS, Navbar.NAV_ITEMS[1].view, None), Active) == 0
  {
    assert Navbar.NAV_ITEMS[1].view == "experience";
    RenderedCounts(VALID_VIEWS, "experience", None);
  }

  /**
   * Loading with no fragment opens home; a switch to portfolio is accepted, one to
   * about during the transition is dropped, phase 1 shows portfolio and publishes
   * `#portfolio`, phase 2 releases the lock, and about is then accepted (its exit phase begins). The lock was
   * held for the delays of the two phase timers, twice the transition duration.
   */
  method TransitionScenario() returns (sw: Switcher.ViewSwitcher, lockHeld: nat)
    ensures sw.current == "portfolio" && sw.leaving == Some("portfolio") && sw.locked
    ensures sw.phase == Switcher.Leaving("about")
    ensures sw.history == ["#portfolio"] && sw.locationHash == "#portfolio"
    ensures lockHeld == 2 * TRANSITION_DURATION
  {
    sw := new Switcher.ViewSwitcher(VALID_VIEWS, "", true);
    assert sw.current == "home";
    var accepted := sw.SwitchView("portfolio");
    assert accepted && sw.leaving == Some("home");
    lockHeld := sw.pending[sw.timerRefs[|sw.timerRefs| - 1]];
    accepted := sw.SwitchView("about");
    assert !accepted;
    var raised := sw.FirePhase1();
    assert sw.current == "portfolio" && sw.leaving == None && sw.locked;
    assert ToHash("portfolio") == "#portfolio";
    lockHeld := lockHeld + sw.pending[sw.timerRefs[|sw.timerRefs| - 1]];
    sw.FirePhase2();
    assert !sw.locked;
    accepted := sw.SwitchView("about");
    assert accepted;
  }

  /** Loading on `#about` opens about directly, with no transition under way. */
  method DirectActivationScenario() returns (sw: Switcher.ViewSwitcher)
    ensures sw.current == "about" && sw.leaving == None && !sw.locked && sw.pending == map[]
  {
    sw := new Switcher.ViewSwitcher(VALID_VIEWS, "#about", true);
    InitialViewOfPublishedHash(VALID_VIEWS, "about");
  }

  /**
   * Without `pushState`: back/forward to `#portfolio` starts a switch, and phase 1
   * assigns the fragment the address bar already shows, so no `hashchange` follows.
   */
  method InboundSwitchPublishesSilently() returns (sw: Switcher.ViewSwitcher, raised: bool)
    ensures sw.current == "portfolio" && sw.locationHash == "#portfolio"
    ensures sw.history == [] && !raised
  {
    sw := new Switcher.ViewSwitcher(VALID_VIEWS, "", false);
    var accepted := sw.OnHashChange("#portfolio");
    assert HashFragment("#portfolio") == "portfolio";
    assert accepted;
    assert ToHash("portfolio") == "#portfolio";
    raised := sw.FirePhase1();
  }
}
