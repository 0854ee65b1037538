/**
 The module lifecycle registry (`GraniteModuleManager`): bridges created
 lazily per module, the view controllers currently tracked per module, and
 the operations that create, list and tear them down.
 */
module ModuleManager {
  import opened Common
  import opened Catalog
  import opened Hierarchy

  /** A controller made by `createViewController`, with a number no other object receives. */
  datatype ModuleController = ModuleController(id: nat, root: RootView)

  /**
   The registry's state. `invalidated` records every bridge on which
   `invalidate()` was called; `nextId` numbers the bridges and controllers it builds.
   */
  datatype Registry = Registry(
    bridges: map<Module, Bridge>,
    activeViewControllers: map<Module, ModuleController>,
    invalidated: set<Bridge>,
    nextId: nat)

  /** The shared instance as first created: nothing loaded, nothing tracked. */
  const Initial: Registry := Registry(map[], map[], {}, 0)

  /** The `fatalError` paths of bridge creation, and the silent return of present/push. */
  datatype RegistryError =
    | BundleUrlNotFound(failing: Module)
    | BridgeCreationFailed(failing: Module)
    | NoTopViewController(failing: Module)

  /** A bridge lookup: the registry afterwards and the bridge handed out. */
  datatype Lookup = Lookup(registry: Registry, bridge: Bridge)

  /** A controller creation: the registry afterwards and the new controller. */
  datatype Created = Created(registry: Registry, controller: ModuleController)

  /**
   The state invariant: a module has a tracked controller only if it has a
   bridge, and that controller runs on it; live bridges were never
   invalidated; every identity handed out is below `nextId`; distinct
   modules hold distinct bridges; every bridge was built by the registry.
   */
  predicate Valid(r: Registry) {
    && (forall m :: m in r.bridges ==> r.bridges[m].issuer == ByModuleManager)
    && (forall b :: b in r.invalidated ==> b.issuer == ByModuleManager)
    && r.activeViewControllers.Keys <= r.bridges.Keys
    && (forall m :: m in r.activeViewControllers ==> r.activeViewControllers[m].root.bridge == r.bridges[m])
    && (forall m :: m in r.bridges ==> r.bridges[m].id < r.nextId && r.bridges[m] !in r.invalidated)
    && (forall m :: m in r.activeViewControllers ==> r.activeViewControllers[m].id < r.nextId)
    && (forall b :: b in r.invalidated ==> b.id < r.nextId)
    && (forall a, b :: a in r.bridges && b in r.bridges && a != b ==> r.bridges[a].id != r.bridges[b].id)
  }

  lemma InitialValid()
    ensures Valid(Initial)
  {
  }

  /**
   `getBridge(for:)`: a cached bridge is returned as is; otherwise the
   module's bundle location is resolved and a new bridge is built from it
   and cached. Where `getBridge(for:)` stops the process with `fatalError`
   (no location, or no bridge built), this returns an error.
   */
  function GetBridge(r: Registry, m: Module, env: Env): (res: Result<Lookup, RegistryError>)
    ensures m in r.bridges ==> res == Ok(Lookup(r, r.bridges[m]))
    ensures m !in r.bridges ==> (res.Err? <==> BundleUrl(m, env).None? || !env.bridgeBuilds)
    ensures res.Err? ==> res.error == (if BundleUrl(m, env).None? then BundleUrlNotFound(m) else BridgeCreationFailed(m))
    ensures m !in r.bridges && res.Ok? ==>
              var r' := res.value.registry;
              var b := res.value.bridge;
              && r'.bridges == r.bridges[m := b]
              && r'.activeViewControllers == r.activeViewControllers
              && r'.invalidated == r.invalidated
              && b.issuer == ByModuleManager && r.nextId <= b.id < r'.nextId
              && BundleUrl(m, env) == Some(b.url)
    ensures Valid(r) && res.Ok? ==> Valid(res.value.registry)
  {
    if m in r.bridges then Ok(Lookup(r, r.bridges[m]))
    else match BundleUrl(m, env)
      case None => Err(BundleUrlNotFound(m))
      case Some(url) =>
        if !env.bridgeBuilds then Err(BridgeCreationFailed(m))
        else
          var b := Bridge(ByModuleManager, r.nextId, url);
          Ok(Lookup(r.(bridges := r.bridges[m := b], nextId := r.nextId + 1), b))
  }

  /**
   `createViewController(for:initialProperties:)`: get or create the
   module's bridge, wrap a root view for the module's app name in a new
   controller, and track it as the module's controller, replacing any
   earlier one.
   */
  function CreateViewController(r: Registry, m: Module, props: Option<Props>, env: Env): (res: Result<Created, RegistryError>)
    ensures res.Err? <==> m !in r.bridges && (BundleUrl(m, env).None? || !env.bridgeBuilds)
    ensures res.Ok? ==>
              var r' := res.value.registry;
              var vc := res.value.controller;
              && m in r'.bridges && m in r'.activeViewControllers
              && r'.activeViewControllers[m] == vc
              && vc.root == RootView(r'.bridges[m], AppName(m), props)
              && r.nextId <= vc.id < r'.nextId
              && r'.bridges - {m} == r.bridges - {m}
              && r'.activeViewControllers - {m} == r.activeViewControllers - {m}
              && r'.invalidated == r.invalidated
    ensures m in r.bridges && res.Ok? ==> res.value.registry.bridges == r.bridges
    ensures res.Ok? ==> && GetBridge(r, m, env).Ok?
                        && res.value.registry.bridges == GetBridge(r, m, env).value.registry.bridges
                        && res.value.controller.root.bridge == GetBridge(r, m, env).value.bridge
    ensures Valid(r) && res.Ok? ==> Valid(res.value.registry)
  {
    match GetBridge(r, m, env)
    case Err(e) => Err(e)
    case Ok(Lookup(r1, b)) =>
      var vc := ModuleController(r1.nextId, RootView(b, AppName(m), props));
      Ok(Created(r1.(activeViewControllers := r1.activeViewControllers[m := vc], nextId := r1.nextId + 1), vc))
  }

  /**
   `destroyModule`: invalidate and drop the module's bridge if it has one,
   and stop tracking its controller. Other modules are untouched.
   */
  function DestroyModule(r: Registry, m: Module): (r': Registry)
    ensures m !in r'.bridges && m !in r'.activeViewControllers
    ensures r'.bridges == r.bridges - {m} && r'.activeViewControllers == r.activeViewControllers - {m}
    ensures m in r.bridges ==> r'.invalidated == r.invalidated + {r.bridges[m]}
    ensures m !in r.bridges ==> r'.invalidated == r.invalidated
    ensures r'.nextId == r.nextId
    ensures Valid(r) ==> Valid(r')
  {
    var invalidated := if m in r.bridges then r.invalidated + {r.bridges[m]} else r.invalidated;
    r.(bridges := r.bridges - {m},
       activeViewControllers := r.activeViewControllers - {m},
       invalidated := invalidated)
  }

  /** `reloadModule`: tear the module down; a new bridge is built only on the next request. */
  function ReloadModule(r: Registry, m: Module): (r': Registry)
    ensures m !in r'.bridges && m !in r'.activeViewControllers
    ensures r'.bridges == r.bridges - {m} && r'.activeViewControllers == r.activeViewControllers - {m}
    ensures r'.nextId == r.nextId
    ensures Valid(r) ==> Valid(r')
  {
    DestroyModule(r, m)
  }

  /** `destroyAllModules`: invalidate every cached bridge, then empty both maps. */
  function DestroyAllModules(r: Registry): (r': Registry)
    ensures r'.bridges == map[] && r'.activeViewControllers == map[]
    ensures forall m :: m in r.bridges ==> r.bridges[m] in r'.invalidated
    ensures r.invalidated <= r'.invalidated
    ensures forall b :: b in r'.invalidated ==> b in r.invalidated || exists m :: m in r.bridges && r.bridges[m] == b
    ensures r'.nextId == r.nextId
    ensures Valid(r) ==> Valid(r')
  {
    Registry(map[], map[], r.invalidated + r.bridges.Values, r.nextId)
  }

  /**
   `getActiveModules`: the raw values of the modules with a tracked
   controller (not of those that merely have a bridge). Swift leaves the
   order of a dictionary's keys unspecified; this lists them in `allCases` order.
   */
  method GetActiveModules(r: Registry) returns (names: seq<string>)
    ensures forall m :: RawValue(m) in names <==> m in r.activeViewControllers
    ensures forall n :: n in names ==> FromRawValue(n).Some?
    ensures forall i, j :: 0 <= i < j < |names| ==> names[i] != names[j]
    ensures names == [] <==> r.activeViewControllers == map[]
  {
    names := [];
    var i := 0;
    while i < |AllCases|
      invariant 0 <= i <= |AllCases|
      invariant forall m :: RawValue(m) in names <==> m in r.activeViewControllers && CaseIndex(m) < i
      invariant forall n :: n in names ==> FromRawValue(n).Some? && CaseIndex(FromRawValue(n).value) < i
      invariant forall k, l :: 0 <= k < l < |names| ==> names[k] != names[l]
      invariant r.activeViewControllers == map[] ==> names == []
    {
      var m := AllCases[i];
      assert CaseIndex(m) == i;
      if m in r.activeViewControllers {
        RawValueRoundTrip(m);
        names := names + [RawValue(m)];
      }
      i := i + 1;
    }
    if names == [] {
      assert forall m :: m !in r.activeViewControllers;
      assert r.activeViewControllers.Keys == {};
    }
  }

  /** What a present or push request did with the controller it created. */
  datatype Shown =
    | PresentedModally(controller: ModuleController, animated: bool)  // wrapped in a new navigation controller
    | Pushed(controller: ModuleController)                            // pushed, animated, onto the top's navigation stack
    | NotShown(controller: ModuleController)                          // the top has no navigation controller to push onto

  /** A present or push request: the registry afterwards and what was shown. */
  datatype Presentation = Presentation(registry: Registry, shown: Shown)

  /** The controller a request created, whichever way it was shown. */
  function ShownController(s: Shown): ModuleController {
    match s
    case PresentedModally(c, _) => c
    case Pushed(c) => c
    case NotShown(c) => c
  }

  /**
   `presentModule`: without a topmost controller nothing happens; otherwise
   a controller is created for the module and presented modally from it.
   */
  function PresentModule(r: Registry, m: Module, animated: bool, props: Option<Props>, scenes: seq<Scene>, env: Env)
    : (res: Result<Presentation, RegistryError>)
    ensures RegistryTopViewController(scenes).None? ==> res == Err(NoTopViewController(m))
    ensures RegistryTopViewController(scenes).Some? ==> (res.Err? <==> CreateViewController(r, m, props, env).Err?)
    ensures res.Ok? ==> CreateViewController(r, m, props, env) == Ok(Created(res.value.registry, ShownController(res.value.shown)))
    ensures res.Ok? ==> && res.value.shown.PresentedModally? && res.value.shown.animated == animated
                        && m in res.value.registry.activeViewControllers
                        && res.value.registry.activeViewControllers[m] == ShownController(res.value.shown)
    ensures Valid(r) && res.Ok? ==> Valid(res.value.registry)
  {
    match RegistryTopViewController(scenes)
    case None => Err(NoTopViewController(m))
    case Some(_) =>
      match CreateViewController(r, m, props, env)
      case Err(e) => Err(e)
      case Ok(Created(r', vc)) => Ok(Presentation(r', PresentedModally(vc, animated)))
  }

  /**
   `pushModule`: without a topmost controller nothing happens; otherwise a
   controller is created and tracked for the module, and pushed only if the
   topmost controller sits in a navigation controller.
   */
  function PushModule(r: Registry, m: Module, props: Option<Props>, scenes: seq<Scene>, env: Env)
    : (res: Result<Presentation, RegistryError>)
    ensures RegistryTopViewController(scenes).None? ==> res == Err(NoTopViewController(m))
    ensures RegistryTopViewController(scenes).Some? ==> (res.Err? <==> CreateViewController(r, m, props, env).Err?)
    ensures res.Ok? ==> CreateViewController(r, m, props, env) == Ok(Created(res.value.registry, ShownController(res.value.shown)))
    ensures res.Ok? ==> (res.value.shown.Pushed? <==> RegistryTopViewController(scenes).value.inNavigation)
    ensures res.Ok? ==> !res.value.shown.PresentedModally?
    ensures res.Ok? ==> && m in res.value.registry.activeViewControllers
                        && res.value.registry.activeViewControllers[m] == ShownController(res.value.shown)
    ensures Valid(r) && res.Ok? ==> Valid(res.value.registry)
  {
    match RegistryTopViewController(scenes)
    case None => Err(NoTopViewController(m))
    case Some(top) =>
      match CreateViewController(r, m, props, env)
      case Err(e) => Err(e)
      case Ok(Created(r', vc)) =>
        Ok(Presentation(r', if top.inNavigation then Pushed(vc) else NotShown(vc)))
  }
}
