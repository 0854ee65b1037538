/**
 Properties of the module registry that relate several calls: caching,
 idempotent and commuting teardown, freshness after teardown, and the
 invariant holding along every sequence of operations.
 */
module RegistryProperties {
  import opened Common
  import opened Catalog
  import opened Hierarchy
  import opened ModuleManager
  import Manager

  /** Asking twice for a module's bridge, with nothing in between, yields the same bridge and no change. */
  lemma GetBridgeIsCached(r: Registry, m: Module, env1: Env, env2: Env)
    requires GetBridge(r, m, env1).Ok?
    ensures var l := GetBridge(r, m, env1).value;
            GetBridge(l.registry, m, env2) == Ok(l)
  {
  }

  /** A module with neither a bridge nor a controller is left exactly as it was by teardown. */
  lemma DestroyAbsentIsNoOp(r: Registry, m: Module)
    requires Valid(r) && m !in r.bridges
    ensures DestroyModule(r, m) == r
  {
  }

  /** Tearing a module down twice is the same as tearing it down once. */
  lemma DestroyIdempotent(r: Registry, m: Module)
    ensures DestroyModule(DestroyModule(r, m), m) == DestroyModule(r, m)
  {
  }

  /** Tearing down two modules gives the same state in either order. */
  lemma DestroyCommutes(r: Registry, a: Module, b: Module)
    ensures DestroyModule(DestroyModule(r, a), b) == DestroyModule(DestroyModule(r, b), a)
  {
    assert r.bridges - {a} - {b} == r.bridges - {b} - {a};
    assert r.activeViewControllers - {a} - {b} == r.activeViewControllers - {b} - {a};
  }

  /** Reloading is exactly teardown: it never builds a bridge itself. */
  lemma ReloadIsDestroy(r: Registry, m: Module)
    ensures ReloadModule(r, m) == DestroyModule(r, m)
    ensures m !in ReloadModule(r, m).bridges
  {
  }

  /**
   After teardown the next request builds a brand-new bridge: not one that
   was ever invalidated, not the one torn down, and not any other module's.
   */
  lemma RebuiltBridgeIsFresh(r: Registry, m: Module, env: Env)
    requires Valid(r)
    requires GetBridge(DestroyModule(r, m), m, env).Ok?
    ensures var b := GetBridge(DestroyModule(r, m), m, env).value.bridge;
            && b !in DestroyModule(r, m).invalidated
            && (m in r.bridges ==> b != r.bridges[m])
            && forall o :: o in r.bridges ==> r.bridges[o] != b
  {
  }

  /** Tearing everything down is tearing each module down in turn. */
  lemma DestroyAllIsDestroyEach(r: Registry)
    ensures DestroyAllModules(r) == DestroyModule(DestroyModule(DestroyModule(r, Home), Login), Profile)
  {
    var r1 := DestroyModule(r, Home);
    var r2 := DestroyModule(r1, Login);
    var r3 := DestroyModule(r2, Profile);
    forall m ensures m !in r3.bridges && m !in r3.activeViewControllers {
      match m
      case Home =>
      case Login =>
      case Profile =>
    }
    assert r3.bridges == map[];
    assert r3.activeViewControllers == map[];
    forall b ensures b in r3.invalidated <==> b in r.invalidated + r.bridges.Values {
      if b in r.bridges.Values {
        var m :| m in r.bridges && r.bridges[m] == b;
        match m
        case Home =>
        case Login =>
        case Profile =>
      }
    }
    assert r3.invalidated == r.invalidated + r.bridges.Values;
  }

  /** Once everything is torn down, no module is listed as active. */
  method ActiveAfterDestroyAll(r: Registry) returns (names: seq<string>)
    ensures names == []
  {
    names := GetActiveModules(DestroyAllModules(r));
  }

  /**
   A push from a controller outside any navigation stack shows nothing, yet
   the module is tracked as active: the active list reflects controllers
   created, not controllers on screen.
   */
  lemma PushWithoutNavigationStillTracks(r: Registry, m: Module, props: Option<Props>, scenes: seq<Scene>, env: Env)
    requires RegistryTopViewController(scenes).Some? && !RegistryTopViewController(scenes).value.inNavigation
    requires CreateViewController(r, m, props, env).Ok?
    ensures PushModule(r, m, props, scenes, env).Ok?
    ensures PushModule(r, m, props, scenes, env).value.shown.NotShown?
    ensures m in PushModule(r, m, props, scenes, env).value.registry.activeViewControllers
  {
  }

  /**
   In a hierarchy whose navigation flags agree with the tree, a push shows
   the controller exactly when the walk to the topmost controller last
   entered a navigation controller's visible child.
   */
  lemma PushFollowsTree(r: Registry, m: Module, props: Option<Props>, scenes: seq<Scene>, env: Env)
    requires WellFormedScenes(scenes)
    requires RegistryTopViewController(scenes).Some?
    requires m in r.bridges || (BundleUrl(m, env).Some? && env.bridgeBuilds)
    ensures PushModule(r, m, props, scenes, env).Ok?
    ensures PushModule(r, m, props, scenes, env).value.shown.Pushed? <==>
            WalkEndsInNavigation(ActiveWindow(scenes).value.root.value, false)
  {
    RegistryTopFlagFollowsTree(scenes);
  }

  /**
   The registry and the single-app manager never hold the same bridge: each
   builds its own, even from the same bundle location.
   */
  lemma RegistryAndManagerBridgesDiffer(r: Registry, g: Manager.GraniteManager)
    requires Valid(r) && Manager.Valid(g) && g.bridge.Some?
    ensures forall m :: m in r.bridges ==> r.bridges[m] != g.bridge.value
  {
  }

  /** One externally requested registry operation. */
  datatype Op =
    | RequestBridge(m: Module, env: Env)
    | RequestController(m: Module, props: Option<Props>, env: Env)
    | Destroy(m: Module)
    | Reload(m: Module)
    | DestroyAll
    | Present(m: Module, animated: bool, props: Option<Props>, scenes: seq<Scene>, env: Env)
    | Push(m: Module, props: Option<Props>, scenes: seq<Scene>, env: Env)

  /** The registry after one operation; a failed operation leaves it as it was. */
  function Step(r: Registry, op: Op): Registry {
    match op
    case RequestBridge(m, env) =>
      (match GetBridge(r, m, env) case Ok(l) => l.registry case Err(_) => r)
    case RequestController(m, props, env) =>
      (match CreateViewController(r, m, props, env) case Ok(c) => c.registry case Err(_) => r)
    case Destroy(m) => DestroyModule(r, m)
    case Reload(m) => ReloadModule(r, m)
    case DestroyAll => DestroyAllModules(r)
    case Present(m, animated, props, scenes, env) =>
      (match PresentModule(r, m, animated, props, scenes, env) case Ok(p) => p.registry case Err(_) => r)
    case Push(m, props, scenes, env) =>
      (match PushModule(r, m, props, scenes, env) case Ok(p) => p.registry case Err(_) => r)
  }

  /** The registry after a sequence of operations. */
  function Run(r: Registry, ops: seq<Op>): Registry
    decreases |ops|
  {
    if |ops| == 0 then r else Run(Step(r, ops[0]), ops[1..])
  }

  /**
   Every reachable registry satisfies the invariant; in particular every
   tracked controller's module has a bridge.
   */
  lemma {:induction false} RunPreservesValid(r: Registry, ops: seq<Op>)
    requires Valid(r)
    ensures Valid(Run(r, ops))
    ensures Run(r, ops).activeViewControllers.Keys <= Run(r, ops).bridges.Keys
    decreases |ops|
  {
    if |ops| > 0 {
      RunPreservesValid(Step(r, ops[0]), ops[1..]);
    }
  }

  /**
   The identity counter never goes back, so no identity is handed out twice
   along any sequence of operations.
   */
  lemma {:induction false} RunNeverReusesIds(r: Registry, ops: seq<Op>)
    ensures Run(r, ops).nextId >= r.nextId
    decreases |ops|
  {
    if |ops| > 0 {
      RunNeverReusesIds(Step(r, ops[0]), ops[1..]);
    }
  }

  /**
   Showing `login` and then `home` lists both as active; tearing everything
   down afterwards empties both maps.
   */
  lemma TwoModulesThenDestroyAll(env: Env, top: Controller)
    requires env.debug && env.devUrlResolves && env.bridgeBuilds
    requires IsLeaf(top)
    ensures var scenes := [WindowScene([Window(Some(top), true)])];
            var p1 := PresentModule(Initial, Login, true, None, scenes, env);
            && p1.Ok?
            && p1.value.registry.activeViewControllers.Keys == {Login}
            && var p2 := PresentModule(p1.value.registry, Home, true, None, scenes, env);
               && p2.Ok?
               && p2.value.registry.activeViewControllers.Keys == {Home, Login}
               && DestroyAllModules(p2.value.registry).bridges == map[]
               && DestroyAllModules(p2.value.registry).activeViewControllers == map[]
  {
  }
}
