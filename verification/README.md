# Granite host-app module lifecycle, modelled in Dafny

The iOS host application embeds several independently bundled React Native
("Granite") mini apps — `home`, `login`, `profile`. This project models the
part of the host with behaviour worth stating:

- **`GraniteModuleManager`** (`module_manager.dfy`, `registry_properties.dfy`, `catalog.dfy`):
  a registry keeping one lazily built `RCTBridge` per module and the view
  controller currently tracked per module. It also covers the closed module enum
  with its names, development ports and bundle locations.
- **`GraniteManager`** (`manager.dfy`): a one-shot initializer holding a single
  bridge, plus the push-or-modal choice of its two presentation calls.
- **`GraniteModule`** (`native_module.dfy`): the native module's scheme
  setter and getter, its configured bridge, and the nil guard when it builds
  controllers.
- The two "topmost view controller" walks over the UIKit hierarchy (`hierarchy.dfy`).

Modelling choices:

- Every operation is a pure function from the old state to the new one.
- Bridges, and the controllers the registry tracks
  (`ModuleManager.ModuleController`), are numbered values. Each component
  that builds them (the registry and the single-app manager) has its own
  counter (`nextId`) that only grows, so a component never reuses a number.
  The app controllers built by `Manager.CreateGraniteApp` and
  `NativeModule.CreateGraniteViewController` carry no number (see
  "## Left out"). A bridge
  also records which component built it (`Common.Issuer`), so bridges of
  different components are never equal even when their numbers and bundle
  locations coincide.
- `invalidate()` is recorded by adding the bridge to the registry's
  `invalidated` set.
- The view-controller hierarchy is a finite tree (`Hierarchy.Controller`).
  A controller's `navigationController` back-pointer is kept as a flag on
  each node. `Hierarchy.NavigationFlagsAgree` says when the flags match
  the tree, as UIKit sets them. Push outcomes are stated in terms of the flag,
  as the Swift code reads it. For hierarchies whose flags match the tree, they are
  also stated in terms of the tree itself (`RegistryProperties.PushFollowsTree`).
- What the platform answers during a call is a parameter (`Common.Env`):
  - the `DEBUG` build flag;
  - whether the URL provider or `main.jsbundle` yields a location;
  - whether `RCTBridge(bundleURL:…)` returns a bridge.
- The Swift code's `fatalError` calls and force unwraps become `Err` results,
  and the state is left unchanged in that case.
- The registry's dictionaries are keyed by raw-value strings. The model keys
  them by the module enum instead. Keys only ever come from `rawValue`, and
  `Catalog.RawValueInjective` shows this changes nothing.
- Swift does not specify the order of a dictionary's keys.
  `getActiveModules` lists them in `allCases` order.

Observations the model makes precise:

- `pushModule` creates and tracks a controller even when the topmost
  controller has no navigation controller to push it onto. The module is
  then listed as active although nothing new is on screen
  (`RegistryProperties.PushWithoutNavigationStillTracks`).
- The two topmost-controller walks differ. The registry's walk descends
  through presented controllers, navigation controllers and tab bars.
  `UIApplication.topViewController` does something else:
  - it starts from the first window of the first scene, not the key window;
  - it follows only the presented chain;
  - it then takes one navigation step.
  Started from the same root controller, the walks agree when its presented
  chain ends in a plain controller (`Hierarchy.WalksAgreeOnPlainEnd`) and
  differ when it ends in a tab bar (`Hierarchy.TabBarIsNotDescended`). From
  real scenes they can also differ because they start from different windows.
- A missing bundle location or a failed bridge construction stops the process
  in the code (`fatalError`), and presenting without a topmost controller
  only logs and returns. The model follows the code in what happens to the
  state, and reports both outcomes as `Err` values so that callers can tell
  them apart.

## Model

| member | source | states |
|---|---|---|
| Hierarchy.TopFrom | ios/ios/GraniteModuleManager.swift:171-185 | nil input gives nil; any controller returned is a leaf (presents nothing, no container) on the walk path, which follows the presented controller when there is one and otherwise a navigation controller's visible child or a tab bar's selected child; a nil answer from a controller means the path meets a container without that child; a plain controller presenting nothing is returned itself |
| Hierarchy.TopFromIdempotent | ios/ios/GraniteModuleManager.swift:171-185 | walking again from the walk's answer gives the same answer |
| Hierarchy.TopFromFindsLeafOnWalk | ios/ios/GraniteModuleManager.swift:171-185 | any leaf on the walk path from a controller is exactly what the walk answers, so the answer is unique |
| Hierarchy.PresentedEnd | ios/ios/GraniteModule.swift:91-94 | the end of the presented chain is nil only for a nil start, presents nothing, and lies on the chain from the start |
| Hierarchy.AppTopViewController | ios/ios/GraniteModule.swift:85-101 | nil without a first window scene or a first window; otherwise the end of the root's presented chain, or that end's visible child when the end is a navigation controller (the iterative loop agrees with the recursive chain end) |
| Hierarchy.AllWindows | ios/ios/GraniteModuleManager.swift:153-156 | a window is listed exactly when some window scene holds it |
| Hierarchy.AllWindowsAppend | ios/ios/GraniteModuleManager.swift:154-156 | flattening keeps scene order: the windows of two scene lists joined are the first list's windows followed by the second's |
| Hierarchy.FirstKeyWindow | ios/ios/GraniteModuleManager.swift:153-158 | nil exactly when no window is key; otherwise a key window with no key window before it |
| Hierarchy.FirstKeyWindowAppend | ios/ios/GraniteModuleManager.swift:157 | the first key window of joined lists is the first list's if it has one, else the second's |
| Hierarchy.ActiveWindow | ios/ios/GraniteModuleManager.swift:153-158 | nil exactly when no window scene holds a key window; otherwise window k of scene i, which is key, with no key window in an earlier window scene and none before k in scene i |
| Hierarchy.ActiveWindowIsFirstOfAllWindows | ios/ios/GraniteModuleManager.swift:153-158 | the scene-by-scene search equals the `flatMap` in `activeWindow` followed by `first(where: isKeyWindow)` |
| Hierarchy.RegistryTopViewController | ios/ios/GraniteModuleManager.swift:163-166 | nil without an active window or root; otherwise a leaf on the walk path from the active window's root, or nil only when that path meets a container without a child |
| Hierarchy.WalksAgreeOnPlainEnd | ios/ios/GraniteModule.swift:91-100 | started from the same root, when its presented chain ends in a plain controller, the registry's walk answers that same end, which is also the application walk's answer |
| Hierarchy.TabBarIsNotDescended | ios/ios/GraniteModule.swift:91-100 | for any presented chain ending in a tab bar whose selected child is a leaf, the application walk answers the tab bar itself while the registry walk answers the selected child, so the two answers differ |
| Hierarchy.TopFlagFollowsTree | ios/ios/GraniteModuleManager.swift:171-185 | when the navigation flags match the tree, the walk's answer has a navigation controller exactly when the walk last entered a navigation controller's visible child after its last presentation step |
| Hierarchy.RegistryTopFlagFollowsTree | ios/ios/GraniteModuleManager.swift:163-166 | the same for the registry's topmost controller of scenes whose flags match their trees |
| Catalog.FromRawValue | ios/ios/GraniteModuleManager.swift:30-33 | a module found for a string has that string as its raw value |
| Catalog.RawValueRoundTrip | ios/ios/GraniteModuleManager.swift:30-33 | every raw value maps back to its module |
| Catalog.FromRawValueExact | ios/ios/GraniteModuleManager.swift:30-33 | a string names a module exactly when it is some module's raw value |
| Catalog.RawValueInjective | ios/ios/GraniteModuleManager.swift:30-33 | distinct modules have distinct raw values |
| Catalog.NamesAreRawValue | ios/ios/GraniteModuleManager.swift:35-41 | bundle name and app name both equal the raw value |
| Catalog.BundleName | ios/ios/GraniteModuleManager.swift:35-37 | the bundle name parses back to the module through `init?(rawValue:)` |
| Catalog.AppName | ios/ios/GraniteModuleManager.swift:39-41 | the app name parses back to the module through `init?(rawValue:)` |
| Catalog.AllCasesEnumerates | ios/ios/GraniteModuleManager.swift:30-33 | `allCases` contains every module, each once |
| Catalog.DevPortsByCaseOrder | ios/ios/GraniteModuleManager.swift:57-64 | the dev port is 8081 plus the module's position in `allCases`, so no two modules share a port |
| Catalog.DevPort | ios/ios/GraniteModuleManager.swift:57-64 | the port is 8081 plus the module's position in `allCases`, between 8081 and 8083 |
| Catalog.BundleUrl | ios/ios/GraniteModuleManager.swift:43-55 | in debug builds a location exists exactly when the provider yields one and is `localhost` at the module's port for root `index`; in release builds it exists exactly when `main.jsbundle` is packaged and is that file |
| Catalog.DebugUrlsDistinct | ios/ios/GraniteModuleManager.swift:43-64 | in a debug build distinct modules load from distinct locations |
| Catalog.ReleaseUrlsShared | ios/ios/GraniteModuleManager.swift:51-54 | in a release build all modules load the same packaged bundle |
| ModuleManager.InitialValid | ios/ios/GraniteModuleManager.swift:17-25 | the freshly created registry satisfies the invariant (tracked modules have bridges, fresh identities, live bridges never invalidated) |
| ModuleManager.GetBridge | ios/ios/GraniteModuleManager.swift:70-91 | a hit returns the cached bridge and changes nothing; a miss fails exactly when no location resolves or construction fails, else adds exactly one entry for the module, with a fresh bridge built from the module's location, leaving everything else alone; the invariant is kept |
| ModuleManager.CreateViewController | ios/ios/GraniteModuleManager.swift:96-115 | fails only when the bridge is missing and cannot be built; otherwise the module has a bridge and its tracked controller is the new, fresh one running the module's app name on that bridge with the given properties; that bridge and the bridge map are exactly what `getBridge(for:)` yields, so a new bridge comes from the module's own location; other modules' entries and a cached bridge are untouched; the invariant is kept |
| ModuleManager.DestroyModule | ios/ios/GraniteModuleManager.swift:120-129 | the module leaves both maps, others stay; its bridge is invalidated only if it had one; the invariant is kept |
| ModuleManager.ReloadModule | ios/ios/GraniteModuleManager.swift:190-193 | the module leaves both maps and no bridge is rebuilt |
| ModuleManager.DestroyAllModules | ios/ios/GraniteModuleManager.swift:134-141 | both maps end empty; bridges invalidated earlier stay invalidated, every bridge stored before is invalidated, and nothing else newly is |
| ModuleManager.GetActiveModules | ios/ios/GraniteModuleManager.swift:146-148 | a module's raw value is listed exactly when it has a tracked controller, without repeats; the list is empty exactly when nothing is tracked |
| ModuleManager.PresentModule | ios/ios/GraniteModuleManager.swift:198-207 | without a topmost controller nothing changes and an error is reported; otherwise the registry afterwards is exactly what creating the module's controller yields (errors included), and that controller is tracked and presented modally with the requested animation |
| ModuleManager.PushModule | ios/ios/GraniteModuleManager.swift:212-220 | without a topmost controller nothing changes; otherwise the registry afterwards is exactly what creating the module's controller yields, and that controller is tracked and pushed exactly when the topmost controller has a navigation controller, never presented modally |
| RegistryProperties.GetBridgeIsCached | ios/ios/GraniteModuleManager.swift:70-73 | two consecutive bridge requests return the same bridge and the second changes nothing |
| RegistryProperties.DestroyAbsentIsNoOp | ios/ios/GraniteModuleManager.swift:120-129 | tearing down a module without a bridge leaves the registry unchanged |
| RegistryProperties.DestroyIdempotent | ios/ios/GraniteModuleManager.swift:120-129 | tearing down twice equals tearing down once |
| RegistryProperties.DestroyCommutes | ios/ios/GraniteModuleManager.swift:120-129 | teardown of two modules is order-independent |
| RegistryProperties.ReloadIsDestroy | ios/ios/GraniteModuleManager.swift:190-193 | reloading is exactly teardown and leaves no bridge |
| RegistryProperties.RebuiltBridgeIsFresh | ios/ios/GraniteModuleManager.swift:75-90 | after teardown the next request builds a bridge that was never invalidated, differs from the torn-down one and from every other module's |
| RegistryProperties.DestroyAllIsDestroyEach | ios/ios/GraniteModuleManager.swift:134-141 | tearing everything down equals tearing down home, login and profile in turn |
| RegistryProperties.ActiveAfterDestroyAll | ios/ios/GraniteModuleManager.swift:134-148 | after tearing everything down the active list is empty |
| RegistryProperties.PushWithoutNavigationStillTracks | ios/ios/GraniteModuleManager.swift:244-252 | whenever controller creation succeeds (a cached bridge, or one that can be built), a push whose top has no navigation controller shows nothing yet leaves the module tracked |
| RegistryProperties.PushFollowsTree | ios/ios/GraniteModuleManager.swift:244-252 | when the scenes' navigation flags match their trees, a topmost controller exists and the module's bridge is cached or can be built, the push succeeds and shows the controller exactly when the walk to the topmost controller last entered a navigation controller's visible child |
| RegistryProperties.RegistryAndManagerBridgesDiffer | ios/ios/GraniteModuleManager.swift:79-89 | a bridge the registry holds is never the single-app manager's bridge |
| RegistryProperties.RunPreservesValid | ios/ios/GraniteModuleManager.swift:99-140 | along any sequence of operations the invariant holds, so every tracked controller's module has a bridge |
| RegistryProperties.RunNeverReusesIds | ios/ios/GraniteModuleManager.swift:79-112 | the identity counter never decreases along any sequence of operations |
| RegistryProperties.TwoModulesThenDestroyAll | ios/ios/GraniteModuleManager.swift:96-141 | presenting login then home tracks {login} then {home, login}; tearing everything down empties both maps |
| NativeModule.SetScheme | ios/ios/GraniteModule.swift:48-50 | afterwards the scheme reported is the one set; the bridge is kept |
| NativeModule.SchemeUri | ios/ios/GraniteModule.swift:41-43 | the reported scheme is always the stored `initialScheme` |
| NativeModule.ConfigureBridge | ios/ios/GraniteModule.swift:52-54 | afterwards the stored bridge is the given one; the scheme is kept |
| NativeModule.CreateGraniteViewController | ios/ios/GraniteModule.swift:56-79 | nil exactly when no bridge is configured; otherwise a controller titled with the app name running it on the configured bridge, missing properties read as empty |
| NativeModule.FreshModule | ios/ios/GraniteModule.swift:24-25 | a fresh module reports `granite://rn` and builds no controller |
| NativeModule.SetSchemeLastWins | ios/ios/GraniteModule.swift:48-50 | the last scheme set wins |
| NativeModule.ConfiguredModuleBuilds | ios/ios/GraniteModule.swift:52-64 | once configured, the module builds controllers on exactly the configured bridge |
| Manager.DefaultBundleUrl | ios/ios/GraniteManager.swift:37-47 | debug builds use the provider's packager location for root `index` when it resolves; release builds use `main.jsbundle` when packaged |
| Manager.Initialize | ios/ios/GraniteManager.swift:29-53 | a repeat call changes nothing whatever the URL; a first call fails only when no location is given and the default is missing; otherwise the manager is initialized, holds a fresh bridge exactly when construction succeeds, built from the given location or else the default |
| Manager.GetBridge | ios/ios/GraniteManager.swift:124-126 | the bridge handed out is exactly the stored one; in a valid state a bridge is handed out only after initialization and was built by the manager (exactly when the manager is ready: `Manager.BridgeExactlyWhenReady`) |
| Manager.IsReady | ios/ios/GraniteManager.swift:129-131 | ready only when initialized with a bridge to hand out; never before initialization or without a bridge |
| Manager.BridgeExactlyWhenReady | ios/ios/GraniteManager.swift:124-131 | in every valid state the stored bridge is present exactly when the manager is ready |
| Manager.FirstInitializeReadiness | ios/ios/GraniteManager.swift:49-50 | after a first successful initialization the manager is ready exactly when the bridge was built |
| Manager.InitializedIsFrozen | ios/ios/GraniteManager.swift:30-33 | once initialized, any sequence of further initialize calls leaves the manager unchanged |
| Manager.NotReadyIsPermanent | ios/ios/GraniteManager.swift:29-53 | an initialized manager without a bridge stays not ready after any further initialize calls |
| Manager.CreateGraniteApp | ios/ios/GraniteViewController.swift:91-118 | the app controller is titled and registered with the app name on the given bridge and properties; the bridge's native module, if any, afterwards reports the scheme and holds the bridge |
| Manager.PresentGraniteApp | ios/ios/GraniteManager.swift:56-90 | nothing without a bridge; otherwise the app runs on the manager's bridge, is pushed exactly when the `from` controller is in a navigation stack and otherwise presented modally in the default style |
| Manager.PresentGraniteAppModally | ios/ios/GraniteManager.swift:93-121 | nothing without a bridge; otherwise always presented modally, full screen, on the manager's bridge |
| Manager.NothingPresentedBeforeInitialize | ios/ios/GraniteManager.swift:64-67 | before initialization both presentation calls present nothing |
| Manager.PresentsExactlyWhenReady | ios/ios/GraniteManager.swift:101-104 | in every valid state each presentation call presents exactly when the manager is ready |
| Manager.PresentationConfiguresNativeModule | ios/ios/GraniteManager.swift:69-77 | after presenting from a ready manager, the bridge's native module reports the requested scheme and builds controllers on the manager's bridge |

## Left out

- UIKit side effects are not modelled: `present`, `pushViewController`,
  `popViewController`, `dismiss`, navigation-bar setup and completion
  handlers. The model records only which branch is taken.
- The window and scene lookup is reduced to sequences of scenes and windows.
  Swift's `connectedScenes` is an unordered set; here its `first` is simply
  the first element of the sequence.
- The internals of `RCTBridge`, `RCTRootView` and `RCTBundleURLProvider` are
  third-party code. Actual URL text is not built; a development location is
  recorded as host, port and root.
- Setting `jsLocation` on the shared provider settings is a global side
  effect. It is not modelled; `Common.Env` gives the provider's current
  location as a parameter.
- `DispatchQueue.main.async` scheduling is treated as immediate. The
  `NotificationCenter` posts in `GraniteViewController` are not modelled.
- `#if DEBUG` is the boolean `Env.debug`.
- The `navigationController` flag on each controller is an input to the
  model. `PushModule` and `Manager.PresentGraniteApp` read it as the Swift
  code does. Only hierarchies satisfying `Hierarchy.NavigationFlagsAgree` are
  guaranteed to match UIKit, and the model does not require this of its inputs.
- `Common.GraniteController` has no identity: two apps built with the same
  title, bridge and properties are the same value, while Swift makes two
  distinct `GraniteViewController` objects. Nothing in the model compares
  them.
- Controller titles made with `capitalized` are left out because this is
  Foundation string behaviour. `ModuleManager.ModuleController` carries no title.
- `GraniteModule.closeView` and `GraniteViewController.closeGraniteView` are
  left out. They only pop or dismiss UIKit controllers.
- The `createGraniteApp` guard in `presentGraniteApp` is never taken in the
  Swift code, because that factory always returns a controller. The model has no
  such failure.
- `initialProperties` values of type `Any` are modelled as strings, because
  the model never inspects them.
- `GraniteCoreModule`, the SwiftUI views, the app delegate and the bundler
  configuration files are not part of this model. They are stubs, UI or
  opaque configuration.
