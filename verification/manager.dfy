/**
 `GraniteManager`: a one-shot initializer holding a single bridge, and the
 two ways it shows a Granite app from a given controller.
 */
module Manager {
  import opened Common
  import opened Hierarchy
  import NativeModule

  /** The manager's state; `nextId` numbers the bridges it builds. */
  datatype GraniteManager = GraniteManager(bridge: Option<Bridge>, isInitialized: bool, nextId: nat)

  /** The shared instance as first created. */
  const Initial: GraniteManager := GraniteManager(None, false, 0)

  /** The force-unwrapped default bundle location was nil: `initialize(bundleURL:)` stops the process. */
  datatype InitError = DefaultBundleMissing

  /** The state invariant: a bridge is only ever stored by initialization, which built it. */
  predicate Valid(g: GraniteManager) {
    g.bridge.Some? ==> g.isInitialized && g.bridge.value.issuer == ByGraniteManager && g.bridge.value.id < g.nextId
  }

  /**
   The location used when no bundle URL is given: the shared provider's
   packager location in a debug build, the packaged `main.jsbundle` in a
   release build.
   */
  function DefaultBundleUrl(env: Env): (r: Option<Url>)
    ensures env.debug ==> (r.Some? <==> env.devUrlResolves)
    ensures !env.debug ==> (r.Some? <==> env.packagedBundlePresent)
    ensures r.Some? && env.debug ==> r.value == DevServer(env.packagerHost, env.packagerPort, DevBundleRoot)
    ensures r.Some? && !env.debug ==> r.value == PackagedBundle
  {
    if env.debug then
      if env.devUrlResolves then Some(DevServer(env.packagerHost, env.packagerPort, DevBundleRoot)) else None
    else
      if env.packagedBundlePresent then Some(PackagedBundle) else None
  }

  /**
   `initialize(bundleURL:)`: a second call changes nothing. A first call
   builds a bridge from the given location, or from the default one, and
   marks the manager initialized whether or not the bridge was built.
   */
  function Initialize(g: GraniteManager, bundleUrl: Option<Url>, env: Env): (res: Result<GraniteManager, InitError>)
    ensures g.isInitialized ==> res == Ok(g)
    ensures !g.isInitialized ==> (res.Err? <==> bundleUrl.None? && DefaultBundleUrl(env).None?)
    ensures !g.isInitialized && res.Ok? ==>
              && res.value.isInitialized
              && (res.value.bridge.Some? <==> env.bridgeBuilds)
              && (res.value.bridge.Some? ==> res.value.bridge.value.issuer == ByGraniteManager
                                               && res.value.bridge.value.id >= g.nextId)
              && (res.value.bridge.Some? && bundleUrl.Some? ==> res.value.bridge.value.url == bundleUrl.value)
              && (res.value.bridge.Some? && bundleUrl.None? ==> Some(res.value.bridge.value.url) == DefaultBundleUrl(env))
    ensures Valid(g) && res.Ok? ==> Valid(res.value)
  {
    if g.isInitialized then Ok(g)
    else
      var location := if bundleUrl.Some? then bundleUrl else DefaultBundleUrl(env);
      match location
      case None => Err(DefaultBundleMissing)
      case Some(url) =>
        var bridge := if env.bridgeBuilds then Some(Bridge(ByGraniteManager, g.nextId, url)) else None;
        Ok(GraniteManager(bridge, true, g.nextId + 1))
  }

  /** `getBridge()`: the stored bridge; in a valid state there is one only after initialization. */
  function GetBridge(g: GraniteManager): (b: Option<Bridge>)
    ensures b == g.bridge
    ensures Valid(g) && b.Some? ==> g.isInitialized
    ensures Valid(g) && b.Some? ==> b.value.issuer == ByGraniteManager
  {
    g.bridge
  }

  /** `isReady()`: initialized and holding a bridge; never before initialization. */
  function IsReady(g: GraniteManager): (ready: bool)
    ensures ready ==> g.isInitialized && GetBridge(g).Some?
    ensures !g.isInitialized || g.bridge.None? ==> !ready
  {
    g.isInitialized && g.bridge != None
  }

  /** In every valid state a bridge is handed out exactly when the manager is ready. */
  lemma BridgeExactlyWhenReady(g: GraniteManager)
    requires Valid(g)
    ensures GetBridge(g).Some? <==> IsReady(g)
  {
  }

  /** A first successful initialization leaves the manager ready exactly when the bridge was built. */
  lemma FirstInitializeReadiness(g: GraniteManager, bundleUrl: Option<Url>, env: Env)
    requires !g.isInitialized
    requires Initialize(g, bundleUrl, env).Ok?
    ensures IsReady(Initialize(g, bundleUrl, env).value) <==> env.bridgeBuilds
  {
  }

  /** One call of `initialize`, with its argument and what the platform answers. */
  datatype InitCall = InitCall(bundleUrl: Option<Url>, env: Env)

  /** The manager after a sequence of `initialize` calls, stopping at the first error. */
  function InitializeAll(g: GraniteManager, calls: seq<InitCall>): Result<GraniteManager, InitError>
    decreases |calls|
  {
    if |calls| == 0 then Ok(g)
    else match Initialize(g, calls[0].bundleUrl, calls[0].env)
      case Err(e) => Err(e)
      case Ok(g') => InitializeAll(g', calls[1..])
  }

  /** Once initialized, any further `initialize` calls leave the manager exactly as it was. */
  lemma {:induction false} InitializedIsFrozen(g: GraniteManager, calls: seq<InitCall>)
    requires g.isInitialized
    ensures InitializeAll(g, calls) == Ok(g)
    decreases |calls|
  {
    if |calls| > 0 {
      InitializedIsFrozen(g, calls[1..]);
    }
  }

  /**
   A manager whose bridge could not be built stays not ready for good:
   no later `initialize` call retries.
   */
  lemma NotReadyIsPermanent(g: GraniteManager, calls: seq<InitCall>)
    requires g.isInitialized && !IsReady(g)
    ensures InitializeAll(g, calls).Ok? && !IsReady(InitializeAll(g, calls).value)
  {
  }

  /** The `modalPresentationStyle` of a modal presentation. */
  datatype ModalStyle = Automatic | FullScreen

  /** How a Granite app was put on screen. */
  datatype Presentation =
    | Pushed(app: GraniteController, animated: bool)                               // onto the `from` controller's navigation stack
    | PresentedModally(app: GraniteController, style: ModalStyle, animated: bool)  // in a new navigation controller

  /**
   A successful presentation call: what was shown, and the bridge's
   `GraniteModule` instance afterwards (nil when the bridge has none).
   */
  datatype Shown = Shown(presentation: Presentation, nativeModule: Option<NativeModule.GraniteModule>)

  /** The manager holds no bridge: `presentGraniteApp` logs the problem and returns. */
  datatype PresentError = NotInitialized

  /**
   `createGraniteApp`: if the bridge has a `GraniteModule` instance it is
   given the scheme and the bridge; the app controller is titled with the app
   name and its root view runs the app on the bridge with the given properties.
   */
  function CreateGraniteApp(appName: string, scheme: string, props: Props, b: Bridge, native: Option<NativeModule.GraniteModule>)
    : (res: (GraniteController, Option<NativeModule.GraniteModule>))
    ensures res.0.title == appName && res.0.root.moduleName == appName
    ensures res.0.root.bridge == b && res.0.root.initialProperties == Some(props)
    ensures res.1.Some? <==> native.Some?
    ensures res.1.Some? ==> NativeModule.SchemeUri(res.1.value) == scheme && res.1.value.bridge == Some(b)
  {
    var configured := match native
      case None => None
      case Some(n) => Some(NativeModule.ConfigureBridge(NativeModule.SetScheme(n, scheme), b));
    (GraniteController(appName, RootView(b, appName, Some(props))), configured)
  }

  /**
   `presentGraniteApp(from:…)`: nothing without a bridge; otherwise the app
   is pushed when the `from` controller is in a navigation stack and
   presented modally in a new navigation controller when it is not.
   */
  function PresentGraniteApp(g: GraniteManager, from: Controller, appName: string, scheme: string, props: Props,
                             animated: bool, native: Option<NativeModule.GraniteModule>)
    : (res: Result<Shown, PresentError>)
    ensures res.Err? <==> g.bridge.None?
    ensures res.Ok? ==> res.value.presentation.app.root == RootView(g.bridge.value, appName, Some(props))
    ensures res.Ok? ==> (res.value.presentation.Pushed? <==> from.inNavigation)
    ensures res.Ok? && res.value.presentation.PresentedModally? ==> res.value.presentation.style == Automatic
    ensures res.Ok? ==> res.value.presentation.animated == animated
    ensures res.Ok? && native.Some? ==> && res.value.nativeModule.Some?
                                        && NativeModule.SchemeUri(res.value.nativeModule.value) == scheme
  {
    match g.bridge
    case None => Err(NotInitialized)
    case Some(b) =>
      var (app, native') := CreateGraniteApp(appName, scheme, props, b, native);
      if from.inNavigation then Ok(Shown(Pushed(app, animated), native'))
      else Ok(Shown(PresentedModally(app, Automatic, animated), native'))
  }

  /**
   `presentGraniteAppModally(from:…)`: nothing without a bridge; otherwise
   the app is always presented modally, full screen.
   */
  function PresentGraniteAppModally(g: GraniteManager, from: Controller, appName: string, scheme: string, props: Props,
                                    animated: bool, native: Option<NativeModule.GraniteModule>)
    : (res: Result<Shown, PresentError>)
    ensures res.Err? <==> g.bridge.None?
    ensures res.Ok? ==> && res.value.presentation.PresentedModally?
                        && res.value.presentation.style == FullScreen
                        && res.value.presentation.animated == animated
                        && res.value.presentation.app.root == RootView(g.bridge.value, appName, Some(props))
    ensures res.Ok? && native.Some? ==> && res.value.nativeModule.Some?
                                        && NativeModule.SchemeUri(res.value.nativeModule.value) == scheme
  {
    match g.bridge
    case None => Err(NotInitialized)
    case Some(b) =>
      var (app, native') := CreateGraniteApp(appName, scheme, props, b, native);
      Ok(Shown(PresentedModally(app, FullScreen, animated), native'))
  }

  /** Before any successful initialization neither call presents anything. */
  lemma NothingPresentedBeforeInitialize(from: Controller, appName: string, scheme: string, props: Props, animated: bool,
                                         native: Option<NativeModule.GraniteModule>)
    ensures PresentGraniteApp(Initial, from, appName, scheme, props, animated, native) == Err(NotInitialized)
    ensures PresentGraniteAppModally(Initial, from, appName, scheme, props, animated, native) == Err(NotInitialized)
  {
  }

  /** In a valid state a call presents something exactly when the manager is ready. */
  lemma PresentsExactlyWhenReady(g: GraniteManager, from: Controller, appName: string, scheme: string, props: Props,
                                 animated: bool, native: Option<NativeModule.GraniteModule>)
    requires Valid(g)
    ensures PresentGraniteApp(g, from, appName, scheme, props, animated, native).Ok? <==> IsReady(g)
    ensures PresentGraniteAppModally(g, from, appName, scheme, props, animated, native).Ok? <==> IsReady(g)
  {
  }

  /**
   After a presentation from a ready manager, the bridge's `GraniteModule`
   reports the requested scheme and builds controllers on the manager's bridge.
   */
  lemma PresentationConfiguresNativeModule(g: GraniteManager, from: Controller, appName: string, scheme: string,
                                           props: Props, animated: bool, n: NativeModule.GraniteModule)
    requires IsReady(g)
    ensures var res := PresentGraniteApp(g, from, appName, scheme, props, animated, Some(n));
            && res.Ok? && res.value.nativeModule.Some?
            && NativeModule.SchemeUri(res.value.nativeModule.value) == scheme
            && var c := NativeModule.CreateGraniteViewController(res.value.nativeModule.value, appName, None);
               c.Some? && c.value.root.bridge == GetBridge(g).value
  {
  }
}
