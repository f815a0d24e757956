/**
 * The view registry of the portfolio's view switcher: which identifiers name a view,
 * how the address-bar fragment is read and written, and which view the page opens on.
 * The registry is a parameter; VALID_VIEWS is the one the switcher hook is built with.
 */
module Registry {

  /** A view identifier, e.g. "home". */
  type View = string

  /** The registry of the switcher hook. */
  const VALID_VIEWS: seq<View> := ["home", "portfolio", "about"]

  /** The view shown when the address bar names no valid view. */
  const DEFAULT_VIEW: View := "home"

  /** Duration, in milliseconds, of the exit phase and of the enter phase alike. */
  const TRANSITION_DURATION: nat := 350

  /** A registry lists every identifier at most once. */
  predicate Distinct(registry: seq<View>)
  {
    forall i, j :: 0 <= i < j < |registry| ==> registry[i] != registry[j]
  }

  /** `VALID_VIEWS.includes(value)`: a linear scan of the registry. */
  function IsValidView(registry: seq<View>, value: string): (valid: bool)
    ensures valid <==> value in registry
  {
    if registry == [] then false
    else registry[0] == value || IsValidView(registry[1..], value)
  }

  /** `location.hash.substring(1)`: the fragment without its first character ('#'). */
  function HashFragment(hash: string): (fragment: string)
    ensures |hash| == 0 ==> fragment == ""
    ensures |hash| > 0 ==> [hash[0]] + fragment == hash
  {
    if |hash| == 0 then "" else hash[1..]
  }

  /** The fragment `#${view}` that a completed switch writes into the address bar. */
  function ToHash(view: View): (hash: string)
    ensures |hash| == |view| + 1 && hash[0] == '#'
  {
    "#" + view
  }

  /** Reading back a published fragment yields the view that was published. */
  lemma FragmentOfPublishedHash(view: View)
    ensures HashFragment(ToHash(view)) == view
  {
  }

  /**
   * The view the switcher starts on, from the address bar at load time: the fragment
   * when it names a registry view, the default view otherwise.
   */
  function InitialView(registry: seq<View>, hash: string): (view: View)
    ensures HashFragment(hash) in registry ==> view == HashFragment(hash)
    ensures HashFragment(hash) !in registry ==> view == DEFAULT_VIEW
    ensures view in registry || view == DEFAULT_VIEW
  {
    var fragment := HashFragment(hash);
    if IsValidView(registry, fragment) then fragment else DEFAULT_VIEW
  }

  /** Loading the page on a published fragment reopens the view that was published. */
  lemma InitialViewOfPublishedHash(registry: seq<View>, view: View)
    requires view in registry
    ensures InitialView(registry, ToHash(view)) == view
  {
    FragmentOfPublishedHash(view);
  }

  /** Number of positions of `s` that hold `x`. */
  function Occurrences<T(==)>(s: seq<T>, x: T): (n: nat)
    ensures n <= |s|
    ensures n == 0 <==> x !in s
  {
    if s == [] then 0
    else (if s[0] == x then 1 else 0) + Occurrences(s[1..], x)
  }

  /** In a registry without repetitions every identifier occurs at most once. */
  lemma {:induction false} OccurrencesInDistinct(registry: seq<View>, view: View)
    requires Distinct(registry)
    ensures Occurrences(registry, view) == if view in registry then 1 else 0
  {
    if registry != [] {
      var rest := registry[1..];
      assert Distinct(rest) by {
        forall i, j | 0 <= i < j < |rest| ensures rest[i] != rest[j] {
          assert rest[i] == registry[i + 1] && rest[j] == registry[j + 1];
        }
      }
      OccurrencesInDistinct(rest, view);
      if registry[0] == view {
        assert view !in rest by {
          forall k | 0 <= k < |rest| ensures rest[k] != view {
            assert rest[k] == registry[k + 1];
          }
        }
      }
      assert view in registry <==> registry[0] == view || view in rest;
    }
  }
}
