/**
 UIKit view-controller hierarchies as a finite tree, and the two "topmost
 controller" walks the host application performs over them.
 */
module Hierarchy {
  import opened Common

  /**
   A view controller. `presented` is its `presentedViewController`; `kind`
   says whether it is a container; `inNavigation` records whether its
   `navigationController` back-pointer is set.
   */
  datatype Controller = Controller(id: nat, kind: Kind, presented: Option<Controller>, inNavigation: bool)

  /** Plain controllers, navigation controllers (with their `visibleViewController`)
      and tab bar controllers (with their `selectedViewController`). */
  datatype Kind =
    | Plain
    | Navigation(visible: Option<Controller>)
    | TabBar(selected: Option<Controller>)

  /** A window and whether it is the key window. */
  datatype Window = Window(root: Option<Controller>, isKey: bool)

  /** A connected scene: only window scenes carry windows. */
  datatype Scene = WindowScene(windows: seq<Window>) | OtherScene

  /** A controller where the full walk stops: it presents nothing and is no container. */
  predicate IsLeaf(c: Controller) {
    c.presented.None? && c.kind.Plain?
  }

  /**
   `d` is on the registry's walk from `c`: `c` itself, or on the walk from the
   controller `c` presents, or, when `c` presents nothing, from a navigation
   controller's visible child or a tab bar's selected child.
   */
  predicate OnWalk(d: Controller, c: Controller)
    decreases c
  {
    || d == c
    || (c.presented.Some? && OnWalk(d, c.presented.value))
    || (c.presented.None? && c.kind.Navigation? && c.kind.visible.Some? && OnWalk(d, c.kind.visible.value))
    || (c.presented.None? && c.kind.TabBar? && c.kind.selected.Some? && OnWalk(d, c.kind.selected.value))
  }

  /** A container where the registry's walk finds no child to move to. */
  predicate IsDeadEnd(c: Controller) {
    && c.presented.None?
    && ((c.kind.Navigation? && c.kind.visible.None?) || (c.kind.TabBar? && c.kind.selected.None?))
  }

  /** `d` is `c` or is reached from `c` by presented links only. */
  predicate OnPresentedChain(d: Controller, c: Controller)
    decreases c
  {
    d == c || (c.presented.Some? && OnPresentedChain(d, c.presented.value))
  }

  /**
   The registry's `topViewController(from:)`: a presented controller wins,
   then a navigation controller's visible child, then a tab bar's selected
   child; any other controller is the answer. A missing link yields nil.
   */
  function TopFrom(c: Option<Controller>): (r: Option<Controller>)
    decreases c
    ensures c.None? ==> r.None?
    ensures r.Some? ==> c.Some? && IsLeaf(r.value) && OnWalk(r.value, c.value)
    ensures c.Some? && r.None? ==> exists d :: OnWalk(d, c.value) && IsDeadEnd(d)
    ensures c.Some? && IsLeaf(c.value) ==> r == c
  {
    match c
    case None => None
    case Some(v) =>
      if v.presented.Some? then TopFrom(v.presented)
      else match v.kind
        case Navigation(visible) =>
          assert forall d :: visible.Some? && OnWalk(d, visible.value) ==> OnWalk(d, v);
          assert visible.None? ==> OnWalk(v, v) && IsDeadEnd(v);
          TopFrom(visible)
        case TabBar(selected) =>
          assert forall d :: selected.Some? && OnWalk(d, selected.value) ==> OnWalk(d, v);
          assert selected.None? ==> OnWalk(v, v) && IsDeadEnd(v);
          TopFrom(selected)
        case Plain => c
  }

  /** The walk answers every leaf on it: a leaf on the walk is the walk's one answer. */
  lemma {:induction false} TopFromFindsLeafOnWalk(c: Controller, d: Controller)
    requires IsLeaf(d) && OnWalk(d, c)
    ensures TopFrom(Some(c)) == Some(d)
    decreases c
  {
    if c != d {
      if c.presented.Some? {
        TopFromFindsLeafOnWalk(c.presented.value, d);
      } else if c.kind.Navigation? {
        TopFromFindsLeafOnWalk(c.kind.visible.value, d);
      } else {
        TopFromFindsLeafOnWalk(c.kind.selected.value, d);
      }
    }
  }

  /** Applying the walk to its own answer changes nothing. */
  lemma TopFromIdempotent(c: Option<Controller>)
    ensures TopFrom(TopFrom(c)) == TopFrom(c)
  {
  }

  /** The end of the `presentedViewController` chain starting at `c`. */
  function PresentedEnd(c: Option<Controller>): (r: Option<Controller>)
    decreases c
    ensures r.None? <==> c.None?
    ensures r.Some? ==> r.value.presented.None? && OnPresentedChain(r.value, c.value)
  {
    match c
    case None => None
    case Some(v) => if v.presented.Some? then PresentedEnd(v.presented) else c
  }

  /**
   The application walk from a window's root: the end of the presented
   chain, or that end's visible child when the end is a navigation controller.
   */
  function AppWalkFrom(root: Option<Controller>): Option<Controller> {
    var end := PresentedEnd(root);
    if end.Some? && end.value.kind.Navigation? then end.value.kind.visible else end
  }

  /**
   `UIApplication.topViewController`: take the first window of the first
   connected scene (nil when that is no window scene or has no window),
   follow its root's presented chain to the end, and answer a navigation
   controller's visible child or else the end itself.
   */
  method AppTopViewController(scenes: seq<Scene>) returns (r: Option<Controller>)
    ensures (|scenes| == 0 || !scenes[0].WindowScene? || |scenes[0].windows| == 0) ==> r.None?
    ensures |scenes| > 0 && scenes[0].WindowScene? && |scenes[0].windows| > 0 ==>
              r == AppWalkFrom(scenes[0].windows[0].root)
  {
    if |scenes| == 0 || !scenes[0].WindowScene? || |scenes[0].windows| == 0 {
      return None;
    }
    var top := scenes[0].windows[0].root;
    while top.Some? && top.value.presented.Some?
      invariant PresentedEnd(top) == PresentedEnd(scenes[0].windows[0].root)
      decreases top
    {
      top := top.value.presented;
    }
    if top.Some? && top.value.kind.Navigation? {
      return top.value.kind.visible;
    }
    return top;
  }

  /** The windows of all window scenes, scene by scene (the `flatMap` in `activeWindow`). */
  function AllWindows(scenes: seq<Scene>): (ws: seq<Window>)
    ensures forall w :: w in ws <==> exists i :: 0 <= i < |scenes| && scenes[i].WindowScene? && w in scenes[i].windows
  {
    if |scenes| == 0 then []
    else SceneWindows(scenes[0]) + AllWindows(scenes[1..])
  }

  /** The windows one scene contributes. */
  function SceneWindows(s: Scene): seq<Window> {
    if s.WindowScene? then s.windows else []
  }

  /** Flattening keeps the scene order: the windows of `s + t` are those of `s`, then those of `t`. */
  lemma {:induction false} AllWindowsAppend(s: seq<Scene>, t: seq<Scene>)
    ensures AllWindows(s + t) == AllWindows(s) + AllWindows(t)
    decreases |s|
  {
    if |s| == 0 {
      assert s + t == t;
    } else {
      assert (s + t)[0] == s[0];
      assert (s + t)[1..] == s[1..] + t;
      AllWindowsAppend(s[1..], t);
    }
  }

  /** The first key window in `ws`, if any. */
  function FirstKeyWindow(ws: seq<Window>): (r: Option<Window>)
    ensures r.None? <==> forall i :: 0 <= i < |ws| ==> !ws[i].isKey
    ensures r.Some? ==> exists i :: 0 <= i < |ws| && ws[i] == r.value && ws[i].isKey &&
                          forall j :: 0 <= j < i ==> !ws[j].isKey
  {
    if |ws| == 0 then None
    else if ws[0].isKey then Some(ws[0])
    else FirstKeyWindow(ws[1..])
  }

  /** The first key window of a concatenation is found in the first part if it has one. */
  lemma {:induction false} FirstKeyWindowAppend(a: seq<Window>, b: seq<Window>)
    ensures FirstKeyWindow(a + b) == if FirstKeyWindow(a).Some? then FirstKeyWindow(a) else FirstKeyWindow(b)
    decreases |a|
  {
    if |a| == 0 {
      assert a + b == b;
    } else {
      assert (a + b)[0] == a[0];
      assert (a + b)[1..] == a[1..] + b;
      FirstKeyWindowAppend(a[1..], b);
    }
  }

  /** A scene holding no key window. */
  predicate HasNoKeyWindow(s: Scene) {
    s.WindowScene? ==> forall k :: 0 <= k < |s.windows| ==> !s.windows[k].isKey
  }

  /**
   Window `k` of scene `i` is the first key window: it is key, no earlier
   scene holds a key window, and no earlier window of scene `i` is key.
   */
  predicate IsFirstKeyWindow(scenes: seq<Scene>, i: int, k: int) {
    && 0 <= i < |scenes| && scenes[i].WindowScene? && 0 <= k < |scenes[i].windows|
    && scenes[i].windows[k].isKey
    && (forall j :: 0 <= j < i ==> HasNoKeyWindow(scenes[j]))
    && (forall l :: 0 <= l < k ==> !scenes[i].windows[l].isKey)
  }

  /** Shifting a first-key-window position past one scene with no key window. */
  lemma FirstKeyWindowShift(scenes: seq<Scene>, i: int, k: int)
    requires |scenes| > 0 && HasNoKeyWindow(scenes[0]) && IsFirstKeyWindow(scenes[1..], i, k)
    ensures IsFirstKeyWindow(scenes, i + 1, k) && scenes[i + 1].windows[k] == scenes[1..][i].windows[k]
  {
  }

  /**
   The registry's `activeWindow`: the first key window among the window
   scenes' windows, scene by scene; nil when no window scene holds one.
   */
  function ActiveWindow(scenes: seq<Scene>): (r: Option<Window>)
    ensures r.None? <==> forall i :: 0 <= i < |scenes| ==> HasNoKeyWindow(scenes[i])
    ensures r.Some? ==> exists i, k :: IsFirstKeyWindow(scenes, i, k) && scenes[i].windows[k] == r.value
  {
    if |scenes| == 0 then None
    else match FirstKeyWindow(SceneWindows(scenes[0]))
      case Some(w) =>
        var ws := SceneWindows(scenes[0]);
        var k :| 0 <= k < |ws| && ws[k] == w && ws[k].isKey && forall j :: 0 <= j < k ==> !ws[j].isKey;
        assert IsFirstKeyWindow(scenes, 0, k);
        Some(w)
      case None =>
        var r := ActiveWindow(scenes[1..]);
        assert forall i :: 1 <= i < |scenes| ==> scenes[i] == scenes[1..][i - 1];
        if r.Some? then
          var i, k :| IsFirstKeyWindow(scenes[1..], i, k) && scenes[1..][i].windows[k] == r.value;
          FirstKeyWindowShift(scenes, i, k);
          r
        else r
  }

  /** `activeWindow` as written, `flatMap` then `first(where:)`, gives the same window. */
  lemma {:induction false} ActiveWindowIsFirstOfAllWindows(scenes: seq<Scene>)
    ensures ActiveWindow(scenes) == FirstKeyWindow(AllWindows(scenes))
    decreases |scenes|
  {
    if |scenes| > 0 {
      FirstKeyWindowAppend(SceneWindows(scenes[0]), AllWindows(scenes[1..]));
      ActiveWindowIsFirstOfAllWindows(scenes[1..]);
    }
  }

  /**
   The registry's `topViewController`: nil without an active window or its
   root; otherwise the leaf the walk from the root reaches, or nil when the
   walk meets a container without a child.
   */
  function RegistryTopViewController(scenes: seq<Scene>): (r: Option<Controller>)
    ensures ActiveWindow(scenes).None? || ActiveWindow(scenes).value.root.None? ==> r.None?
    ensures r.Some? ==> && ActiveWindow(scenes).Some? && ActiveWindow(scenes).value.root.Some?
                        && IsLeaf(r.value) && OnWalk(r.value, ActiveWindow(scenes).value.root.value)
    ensures ActiveWindow(scenes).Some? && ActiveWindow(scenes).value.root.Some? && r.None? ==>
              exists d :: OnWalk(d, ActiveWindow(scenes).value.root.value) && IsDeadEnd(d)
  {
    match ActiveWindow(scenes)
    case None => None
    case Some(w) => TopFrom(w.root)
  }

  /**
   The two walks agree whenever the presented chain ends in a plain
   controller: neither has a container left to descend into.
   */
  lemma {:induction false} WalksAgreeOnPlainEnd(c: Option<Controller>)
    requires PresentedEnd(c).Some? && PresentedEnd(c).value.kind.Plain?
    ensures TopFrom(c) == PresentedEnd(c)
    ensures TopFrom(c) == AppWalkFrom(c)
    decreases c
  {
    var v := c.value;
    if v.presented.Some? {
      WalksAgreeOnPlainEnd(v.presented);
    }
  }

  /**
   The `navigationController` flags agree with the tree: a controller has
   one exactly when it is reached from a navigation controller's visible
   child through containment links (visible and selected children). The root
   and a presented controller are nobody's child, so they have none unless a
   navigation controller contains them.
   */
  predicate NavigationFlagsAgree(c: Controller, underNavigation: bool)
    decreases c
  {
    && c.inNavigation == underNavigation
    && (c.presented.Some? ==> NavigationFlagsAgree(c.presented.value, false))
    && (c.kind.Navigation? && c.kind.visible.Some? ==> NavigationFlagsAgree(c.kind.visible.value, true))
    && (c.kind.TabBar? && c.kind.selected.Some? ==> NavigationFlagsAgree(c.kind.selected.value, underNavigation))
  }

  /** Every window's root has flags agreeing with its tree. */
  predicate WellFormedScenes(scenes: seq<Scene>) {
    forall i, k ::
      (0 <= i < |scenes| && scenes[i].WindowScene? && 0 <= k < |scenes[i].windows| && scenes[i].windows[k].root.Some?)
      ==> NavigationFlagsAgree(scenes[i].windows[k].root.value, false)
  }

  /**
   Whether the registry's walk from `c` has passed through a navigation
   controller's visible child since it last followed a presentation.
   */
  function WalkEndsInNavigation(c: Controller, underNavigation: bool): bool
    decreases c
  {
    if c.presented.Some? then WalkEndsInNavigation(c.presented.value, false)
    else match c.kind
      case Navigation(visible) => if visible.Some? then WalkEndsInNavigation(visible.value, true) else true
      case TabBar(selected) => if selected.Some? then WalkEndsInNavigation(selected.value, underNavigation) else underNavigation
      case Plain => underNavigation
  }

  /**
   In a hierarchy whose flags agree with the tree, the walk's answer has a
   navigation controller exactly when the walk last entered it through a
   navigation controller's visible child.
   */
  lemma {:induction false} TopFlagFollowsTree(c: Controller, underNavigation: bool)
    requires NavigationFlagsAgree(c, underNavigation)
    requires TopFrom(Some(c)).Some?
    ensures TopFrom(Some(c)).value.inNavigation == WalkEndsInNavigation(c, underNavigation)
    decreases c
  {
    if c.presented.Some? {
      TopFlagFollowsTree(c.presented.value, false);
    } else if c.kind.Navigation? {
      TopFlagFollowsTree(c.kind.visible.value, true);
    } else if c.kind.TabBar? {
      TopFlagFollowsTree(c.kind.selected.value, underNavigation);
    }
  }

  /** The registry's top controller of well-formed scenes has a navigation controller exactly as the tree says. */
  lemma RegistryTopFlagFollowsTree(scenes: seq<Scene>)
    requires WellFormedScenes(scenes)
    requires RegistryTopViewController(scenes).Some?
    ensures RegistryTopViewController(scenes).value.inNavigation ==
            WalkEndsInNavigation(ActiveWindow(scenes).value.root.value, false)
  {
    var i, k :| IsFirstKeyWindow(scenes, i, k) && scenes[i].windows[k] == ActiveWindow(scenes).value;
    TopFlagFollowsTree(ActiveWindow(scenes).value.root.value, false);
  }

  /**
   Unlike the registry's walk, the application walk never descends into a
   tab bar: when the presented chain ends in a tab bar whose selected child is
   a leaf, the application walk stops at the tab bar (no navigation step
   applies), while the registry's walk answers the selected child.
   */
  lemma {:induction false} TabBarIsNotDescended(c: Controller, child: Controller)
    requires PresentedEnd(Some(c)).Some?
    requires PresentedEnd(Some(c)).value.kind == TabBar(Some(child)) && IsLeaf(child)
    ensures AppWalkFrom(Some(c)) == PresentedEnd(Some(c))
    ensures TopFrom(Some(c)) == Some(child)
    ensures AppWalkFrom(Some(c)) != TopFrom(Some(c))
    decreases c
  {
    if c.presented.Some? {
      TabBarIsNotDescended(c.presented.value, child);
    }
  }
}
