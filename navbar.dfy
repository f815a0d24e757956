/**
 * The navigation bar: its items, the tab buttons it registers through ref callbacks,
 * cyclic keyboard navigation between those buttons, clicks, and the selected flag.
 */
module Navbar {
  import opened Wrappers
  import opened Registry
  import Switcher

  /** A focusable element of the document. */
  type ElementId = nat

  datatype NavItem = NavItem(title: string, view: View)

  /** The bar's items, in tab order. */
  const NAV_ITEMS: seq<NavItem> := [
    NavItem("About", "about"),
    NavItem("Experience", "experience"),
    NavItem("Projects", "projects"),
    NavItem("Education", "education"),
    NavItem("Skills", "skills"),
    NavItem("Contact", "contact")
  ]

  /** The views of the items, in order. */
  function ItemViews(items: seq<NavItem>): (views: seq<View>)
    ensures |views| == |items|
    ensures forall k :: 0 <= k < |items| ==> views[k] == items[k].view
  {
    if items == [] then [] else [items[0].view] + ItemViews(items[1..])
  }

  /**
   * JavaScript's `a % b`: the remainder takes the sign of the dividend. It agrees with
   * Dafny's `%` whenever the dividend is non-negative.
   */
  function JsRem(a: int, b: int): (r: int)
    requires b > 0
    ensures a >= 0 ==> r == a % b && 0 <= r < b
    ensures a < 0 ==> -b < r <= 0
  {
    if a >= 0 then a % b else -((-a) % b)
  }

  /** ArrowRight / ArrowDown: `(i + 1) % len`, the next button, wrapping from the last to the first. */
  function Forward(i: nat, len: nat): (j: nat)
    requires i < len
    ensures j == if i + 1 < len then i + 1 else 0
  {
    JsRem(i + 1, len)
  }

  /** ArrowLeft / ArrowUp: `(i - 1 + len) % len`, the previous button, wrapping from the first to the last. */
  function Backward(i: nat, len: nat): (j: nat)
    requires i < len
    ensures j == if i > 0 then i - 1 else len - 1
  {
    JsRem(i - 1 + len, len)
  }

  /** Moving forward and then back returns to the start, and so does back and then forward. */
  lemma ForwardBackwardInverse(i: nat, len: nat)
    requires i < len
    ensures Backward(Forward(i, len), len) == i
    ensures Forward(Backward(i, len), len) == i
  {
  }

  /** `Forward` applied `k` times. */
  function ForwardTimes(i: nat, k: nat, len: nat): (j: nat)
    requires i < len
    ensures j < len
  {
    if k == 0 then i else Forward(ForwardTimes(i, k - 1, len), len)
  }

  /** Up to one full round, `k` steps forward from `i` land on `i + k`, wrapped once. */
  lemma {:induction false} ForwardTimesWraps(i: nat, k: nat, len: nat)
    requires i < len && k <= len
    ensures ForwardTimes(i, k, len) == if i + k < len then i + k else i + k - len
  {
    if k > 0 {
      ForwardTimesWraps(i, k - 1, len);
    }
  }

  /** `len` steps forward from any button come back to it: a full cycle. */
  lemma {:induction false} FullCycle(i: nat, len: nat)
    requires i < len
    ensures ForwardTimes(i, len, len) == i
  {
    ForwardTimesWraps(i, len, len);
  }

  /** Fewer than `len` steps forward never come back: the cycle visits every button once. */
  lemma {:induction false} NoShorterCycle(i: nat, k: nat, len: nat)
    requires i < len && 0 < k < len
    ensures ForwardTimes(i, k, len) != i
  {
    ForwardTimesWraps(i, k, len);
  }

  /** The keys the bar reacts to. */
  predicate IsNavigationKey(key: string)
  {
    key in {"ArrowRight", "ArrowDown", "ArrowLeft", "ArrowUp", "Home", "End"}
  }

  /**
   * The index `handleKeyDown` moves to from the focused button `index`, or None when
   * the key is not one the bar handles.
   */
  function NextIndex(key: string, index: nat, len: nat): (next: Option<nat>)
    requires index < len
    ensures next.Some? <==> IsNavigationKey(key)
    ensures next.Some? ==> next.value < len
    ensures key == "ArrowRight" || key == "ArrowDown" ==>
      next == Some(if index + 1 < len then index + 1 else 0)
    ensures key == "ArrowLeft" || key == "ArrowUp" ==>
      next == Some(if index > 0 then index - 1 else len - 1)
    ensures key == "Home" ==> next == Some(0)
    ensures key == "End" ==> next == Some(len - 1)
  {
    if key == "ArrowRight" || key == "ArrowDown" then Some(Forward(index, len))
    else if key == "ArrowLeft" || key == "ArrowUp" then Some(Backward(index, len))
    else if key == "Home" then Some(0)
    else if key == "End" then Some(len - 1)
    else None
  }

  /** `refs.findIndex(el => el === focused)`: the first slot holding the element, or -1. */
  function FindIndex(refs: seq<Option<ElementId>>, focused: ElementId): (index: int)
    ensures -1 <= index < |refs|
    ensures index == -1 <==> Some(focused) !in refs
    ensures index >= 0 ==> refs[index] == Some(focused)
    ensures forall k :: 0 <= k < |refs| && (index == -1 || k < index) ==> refs[k] != Some(focused)
  {
    if refs == [] then -1
    else if refs[0] == Some(focused) then 0
    else
      var rest := FindIndex(refs[1..], focused);
      if rest == -1 then -1 else rest + 1
  }

  /** `aria-selected` (and the `active` class) of item `k`. */
  function AriaSelected(items: seq<NavItem>, currentView: View, k: nat): (selected: bool)
    requires k < |items|
    ensures selected <==> currentView == ItemViews(items)[k]
  {
    items[k].view == currentView
  }

  /** Number of items flagged as selected. */
  function SelectedCount(items: seq<NavItem>, currentView: View): (n: nat)
    ensures n == Occurrences(ItemViews(items), currentView)
  {
    if items == [] then 0
    else (if AriaSelected(items, currentView, 0) then 1 else 0) + SelectedCount(items[1..], currentView)
  }

  /**
   * With distinct item views, exactly one item is selected when the current view is
   * one of them, and none otherwise.
   */
  lemma SelectedIsUnique(items: seq<NavItem>, currentView: View)
    requires Distinct(ItemViews(items))
    ensures SelectedCount(items, currentView) == if currentView in ItemViews(items) then 1 else 0
  {
    OccurrencesInDistinct(ItemViews(items), currentView);
  }

  /** What a key press does to focus. */
  datatype KeyOutcome =
    | Ignored
      /** The default action is prevented, focus goes to the button at `index` when
          its ref is attached, and the item's view is requested. */
    | Moved(index: nat, focus: Option<ElementId>)

  class NavigationBar {
    const items: seq<NavItem>
    /** `linkRefs.current`; None for a slot that holds null or was never set. */
    var linkRefs: seq<Option<ElementId>>

    ghost predicate Valid()
      reads this
    {
      0 < |items| && |linkRefs| <= |items|
    }

    constructor (items: seq<NavItem>)
      requires 0 < |items|
      ensures Valid() && this.items == items && linkRefs == []
    {
      this.items := items;
      linkRefs := [];
    }

    /** The ref callback of button `index`: `linkRefs.current[index] = el`. */
    method AttachRef(index: nat, el: Option<ElementId>)
      requires Valid() && index < |items|
      modifies this
      ensures Valid()
      ensures |linkRefs| == if index < |old(linkRefs)| then |old(linkRefs)| else index + 1
      ensures linkRefs[index] == el
      ensures forall k :: 0 <= k < |linkRefs| && k != index ==>
        linkRefs[k] == if k < |old(linkRefs)| then old(linkRefs)[k] else None
    {
      if index < |linkRefs| {
        linkRefs := linkRefs[index := el];
      } else {
        linkRefs := linkRefs + seq(index - |linkRefs|, _ => None) + [el];
      }
    }

    /**
     * `handleKeyDown`: only when focus is on one of the bar's buttons and the key is a
     * navigation key, focus moves to the next button and its view is requested from
     * the switcher; otherwise nothing happens.
     */
    method HandleKeyDown(sw: Switcher.ViewSwitcher, key: string, focused: ElementId)
      returns (outcome: KeyOutcome, accepted: bool)
      requires Valid() && sw.Valid() && !sw.disposed
      modifies sw
      ensures sw.Valid()
      ensures Some(focused) !in linkRefs ==> outcome == Ignored && !accepted && unchanged(sw)
      ensures Some(focused) in linkRefs && !IsNavigationKey(key) ==>
        outcome == Ignored && !accepted && unchanged(sw)
      ensures outcome.Moved? ==>
        && Some(focused) in linkRefs
        && outcome.index < |items|
        && Some(outcome.index) == NextIndex(key, FindIndex(linkRefs, focused), |items|)
        && outcome.focus == (if outcome.index < |linkRefs| then linkRefs[outcome.index] else None)
        && sw.SwitchOutcome(items[outcome.index].view, accepted)
        && sw.locationHash == old(sw.locationHash)
      ensures Some(focused) in linkRefs && IsNavigationKey(key) ==> outcome.Moved?
    {
      var currentIndex := FindIndex(linkRefs, focused);
      if currentIndex == -1 {
        return Ignored, false;
      }
      var nextIndex := NextIndex(key, currentIndex, |items|);
      if nextIndex.Some? {
        var n := nextIndex.value;
        var focus := if n < |linkRefs| then linkRefs[n] else None;
        outcome := Moved(n, focus);
        accepted := sw.SwitchView(items[n].view);
      } else {
        outcome, accepted := Ignored, false;
      }
    }

    /** The click handler of button `k`: `switchView(item.view)`. */
    method Click(sw: Switcher.ViewSwitcher, k: nat) returns (accepted: bool)
      requires Valid() && k < |items| && sw.Valid() && !sw.disposed
      modifies sw
      ensures sw.Valid()
      ensures sw.SwitchOutcome(items[k].view, accepted)
      ensures sw.locationHash == old(sw.locationHash)
    {
      accepted := sw.SwitchView(items[k].view);
    }
  }
}
