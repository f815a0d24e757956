# View switcher of the portfolio page, in Dafny

The portfolio is a single page that shows one content panel ("view") at a time. A
switch between views runs in two timed phases of 350 ms each. First the old view exits.
Then the new view becomes current, its fragment (`#portfolio`) is written to the address
bar, and after a second 350 ms the transition lock is released. Requests that arrive
while the lock is held, or that name the view already shown, are dropped.

This project models:

- `registry.dfy` (module `Registry`): the registry of valid views, `isValidView`, reading
  and writing the address-bar fragment, and the choice of the first view at load time.
- `switcher.dfy` (module `Switcher`): the transition engine of the `useViewSwitcher` hook
  as a class `ViewSwitcher`. Its fields are the current and leaving views, the lock, the
  phase, the address bar, the history entries pushed, the list of timer handles the hook
  records and the runtime's queue of timers still due. Each timer callback is a step
  method (`FirePhase1`, `FirePhase2`) that can run only while its timer is still queued.
  `OnHashChange` is the back/forward handler and `Dispose` is the unmount cleanup.
- `navbar.dfy` (module `Navbar`): the navigation bar. This covers the next-index
  arithmetic of its keyboard handler (with JavaScript's truncating `%` written out), the
  focus guard, clicks, the selected flag, and the ref callbacks that fill its list of
  buttons.
- `app.dfy` (module `App`): the per-panel state `getViewState` and what the page renders
  across its panels, plus client methods that replay three scenarios.
- `wrappers.dfy`: an `Option` type for the source's nullable values.

Facts about the code that shape the model:

- `switchView` does not check its target against `VALID_VIEWS`; only the TypeScript type
  constrains it. `NAV_ITEMS` (src/components/Navbar.tsx:10-15) and the buttons in the
  views (src/components/views/HomeView.tsx:44, src/components/views/AboutView.tsx:48)
  pass views outside `VALID_VIEWS`. `SwitchView` therefore accepts any identifier, and
  `App.NavbarViewsOutsideRegistry` shows the effect: when such a view is current, no
  panel is active.
- The fragment is published when the exit phase ends, while the lock is still held.
- No announcement for assistive technology is ever written: the page only renders an
  empty live region.
- Without `pushState`, the fallback assigns `location.hash`. The browser raises
  `hashchange` for that assignment only when it changes the fragment, which it does not
  when the switch itself came from a hash change (`App.InboundSwitchPublishesSilently`).
  When the event is raised, `Switcher.PublishThenEcho` proves it is a no-op.

## Model

| member | source | states |
|---|---|---|
| `Registry.IsValidView` | src/hooks/useViewSwitcher.ts:5-10 | a string is a valid view exactly when it is one of the registry's identifiers |
| `Registry.HashFragment` | src/hooks/useViewSwitcher.ts:22 | the fragment is the address-bar hash without its first character, and empty for an empty hash |
| `Registry.ToHash` | src/hooks/useViewSwitcher.ts:61 | the published fragment is `#` followed by the view |
| `Registry.FragmentOfPublishedHash` | src/hooks/useViewSwitcher.ts:57-63 | reading back a published fragment gives the view that was published |
| `Registry.InitialView` | src/hooks/useViewSwitcher.ts:20-24 | the first view is the fragment when it names a registry view, and `home` otherwise |
| `Registry.InitialViewOfPublishedHash` | src/hooks/useViewSwitcher.ts:20-24 | loading the page on a published fragment reopens that view |
| `Registry.OccurrencesInDistinct` | src/hooks/useViewSwitcher.ts:5 | in a registry without repetitions, each identifier occurs once or not at all |
| `Switcher.ViewSwitcher.constructor` | src/hooks/useViewSwitcher.ts:20-32 | mounting seeds the current view from the address bar, with no leaving view, no lock, no timers and no history entry |
| `Switcher.ViewSwitcher.SetTimeout` | src/hooks/useViewSwitcher.ts:53 | scheduling queues exactly one timer, under a fresh handle, with its delay |
| `Switcher.ViewSwitcher.ClearTimeout` | src/hooks/useViewSwitcher.ts:97 | clearing removes that timer from the queue and nothing else |
| `Switcher.ViewSwitcher.SwitchView` | src/hooks/useViewSwitcher.ts:39-76 | a switch is accepted iff the target differs from the current view and the lock is free. If rejected, nothing changes and nothing is scheduled. If accepted, it takes the lock, marks the still-current view as leaving, records and queues exactly one timer of 350 ms, and leaves the address bar and history alone |
| `Switcher.ViewSwitcher.FirePhase1` | src/hooks/useViewSwitcher.ts:53-73 | the exit timer sets the target current and clears the leaving view. It publishes `#target`: as a new history entry, or, without `pushState`, as an assignment of `location.hash` that raises `hashchange` exactly when the fragment changes. It keeps the lock and queues exactly one 350 ms enter timer |
| `Switcher.ViewSwitcher.FirePhase2` | src/hooks/useViewSwitcher.ts:67-70 | the enter timer only releases the lock: current view, leaving view, address bar and history are unchanged, and no timer remains queued |
| `Switcher.ViewSwitcher.OnHashChange` | src/hooks/useViewSwitcher.ts:80-85 | a hash change naming a registry view behaves exactly like `switchView` of that view; an invalid or empty fragment changes nothing |
| `Switcher.ViewSwitcher.Dispose` | src/hooks/useViewSwitcher.ts:92-99 | unmount clears every recorded timer, so the queue is empty and no phase callback can run afterwards; the view state is untouched |
| `Switcher.PublishThenEcho` | src/hooks/useViewSwitcher.ts:53-85 | the `hashchange` echo of a published fragment is rejected, so publishing never starts another transition |
| `Navbar.JsRem` | src/components/Navbar.tsx:33-36 | JavaScript's remainder has the sign of the dividend and equals Dafny's `%` for a non-negative dividend |
| `Navbar.Forward` | src/components/Navbar.tsx:31-33 | ArrowRight/ArrowDown moves to the next index and wraps from the last index to 0 |
| `Navbar.Backward` | src/components/Navbar.tsx:34-36 | ArrowLeft/ArrowUp moves to the previous index and wraps from 0 to `len-1`, always inside `[0, len)` |
| `Navbar.ForwardBackwardInverse` | src/components/Navbar.tsx:31-36 | next then previous, and previous then next, return to the starting index |
| `Navbar.ForwardTimesWraps` | src/components/Navbar.tsx:31-33 | up to one full round, `k` steps forward from `i` reach `i+k` wrapped once |
| `Navbar.FullCycle` | src/components/Navbar.tsx:31-33 | `len` steps forward from any index return to it |
| `Navbar.NoShorterCycle` | src/components/Navbar.tsx:31-33 | fewer than `len` positive steps forward never return to the start, so a cycle visits every button once |
| `Navbar.NextIndex` | src/components/Navbar.tsx:28-43 | the six navigation keys give an in-bounds index. Arrows step with wrap-around, Home gives 0 and End gives `len-1` whatever the start. Any other key gives none |
| `Navbar.FindIndex` | src/components/Navbar.tsx:24-26 | the focused element's first slot among the registered buttons, or -1 exactly when it is not one of them |
| `Navbar.AriaSelected` | src/components/Navbar.tsx:69-72 | item `k` is flagged `aria-selected` (and gets the `active` class) exactly when its view is the current view |
| `Navbar.SelectedCount` | src/components/Navbar.tsx:65-72 | the number of items flagged `aria-selected` (and `active`) equals the number of items whose view is the current view |
| `Navbar.SelectedIsUnique` | src/components/Navbar.tsx:65-72 | with distinct item views, exactly one item is selected when the current view is among them and none otherwise |
| `Navbar.NavigationBar.constructor` | src/components/Navbar.tsx:18-19 | the bar starts with its items and no registered buttons |
| `Navbar.NavigationBar.AttachRef` | src/components/Navbar.tsx:68 | the ref callback stores the button in its slot, growing the list with empty slots, and leaves every other slot as it was |
| `Navbar.NavigationBar.HandleKeyDown` | src/components/Navbar.tsx:22-51 | focus outside the bar's buttons, or an unhandled key, does nothing and calls nothing. Otherwise focus moves to the in-bounds next index and that item's view is requested from the switcher |
| `Navbar.NavigationBar.Click` | src/components/Navbar.tsx:74 | clicking item `k` requests item `k`'s view from the switcher |
| `App.GetViewState` | src/App.tsx:16-23 | a panel is active iff it is the current view; leaving iff it is the leaving view and not current (current takes priority); hidden otherwise |
| `App.CorrectedViewState` | src/App.tsx:16-23 | corrected ordering: a panel is leaving iff it is the leaving view, active iff current and not leaving, hidden otherwise |
| `App.PanelStates` | src/App.tsx:32-37 | each rendered panel gets the state of its own view, in order |
| `App.RenderedStates` | src/App.tsx:32-37 | the page renders one panel per registry view, in order, each in the state `getViewState` gives its view |
| `App.RenderedCounts` | src/App.tsx:16-37 | over distinct panels, exactly one panel is active when the current view is a panel; at most one is leaving, namely the leaving view when it is a panel other than the current one |
| `App.CorrectedCounts` | src/App.tsx:16-23 | under the corrected ordering, the leaving view is the one leaving panel and the current view is active unless it is leaving |
| `App.LeavingNeverRendered` | src/App.tsx:18-19 | as written, no valid switcher state renders a leaving panel, whatever the current view; exactly one panel is active when the current view is a panel |
| `App.ExitPhaseRendersNoLeavingPanel` | src/App.tsx:18-19 | during the exit phase from home, home renders active and the other panels hidden |
| `App.CorrectedPanelsFollowPhase` | src/App.tsx:16-23 | corrected, in every valid state whose current view is a panel (over distinct panels): during the exit phase the view being left is the only leaving panel, none is active and the target is hidden; in the other phases exactly the current view is active |
| `App.NavbarViewsOutsideRegistry` | src/components/Navbar.tsx:9-16 | five of the bar's six views are outside the switcher's registry, and with one of them current no panel is active |
| `App.TransitionScenario` | src/hooks/useViewSwitcher.ts:39-76 | the documented home→portfolio scenario: the request during the transition is dropped, `#portfolio` is published, the lock is held for two 350 ms delays, and a later request is accepted |
| `App.DirectActivationScenario` | src/hooks/useViewSwitcher.ts:20-26 | loading on `#about` activates about directly, unlocked and with nothing leaving or queued |
| `App.InboundSwitchPublishesSilently` | src/hooks/useViewSwitcher.ts:60-64 | without `pushState`, a switch started by a hash change to `#portfolio` republishes the fragment the address bar already shows, so phase 1 raises no `hashchange` and pushes no history entry |

## Left out

- `script.js`: smooth scrolling, scroll-dependent classes, section highlighting, reveal on scroll, parallax, tilt, ripple and cursor effects. These are DOM geometry and animation-frame work with no view-state logic.
- `src/hooks/useScrollPrevention.ts`: event-listener plumbing that prevents page scrolling.
- The view and UI components, the background layer and the project data: rendering and static content. Each view's class name only reflects the state computed by `getViewState`.
- The live region for announcements: the code never writes a message into it, so there is nothing to model.
- React's split between state and refs, and when it re-renders: the model keeps one authoritative value per field. The refs and the state always agree at the points the handlers read them.
- Wall-clock time: each timer carries its delay, and a callback runs as an explicit step method. The order in which browsers run due timers is not modelled beyond the single timer that is due at any moment.
- The browser's session history beyond the entries this code pushes: the back/forward cursor, and entries created by the `location.hash` fallback, are not modelled. Back/forward navigation reaches the model only as `OnHashChange`.
- Registering and removing the `hashchange` and `keydown` listeners: they are added on mount and removed on unmount.
- `document.activeElement` being `null`: the model's focused element is always an element. The `focus()` call is represented by the element the outcome names.
- `Switcher.ViewSwitcher.SwitchView` and `Switcher.ViewSwitcher.OnHashChange` require that the hook has not been unmounted: after unmount the `hashchange` listener is removed and the components that hold `switchView` are gone, so nothing calls them.

## Findings

| source | as written | input that shows it | evidently intended | confidence | as-written member | corrected member |
|---|---|---|---|---|---|---|
| src/App.tsx:18-19 | `getViewState` tests the current view before the leaving view. During the exit phase the leaving view is still the current view (src/hooks/useViewSwitcher.ts:48-51), so no panel is ever rendered as leaving and the exit animation never gets its state | current view `home`, then `switchView('portfolio')`: for 350 ms `currentView` and `leavingView` are both `home`, and `getViewState('home')` is `'active'` | the view being left renders as leaving during the exit phase, then the target renders as active | medium, not executed | `App.LeavingNeverRendered` | `App.CorrectedPanelsFollowPhase` |
