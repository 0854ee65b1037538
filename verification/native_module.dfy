/**
 The `GraniteModule` native module: the scheme it reports to JavaScript,
 the bridge it is configured with, and the controllers it builds from that
 bridge.
 */
module NativeModule {
  import opened Common

  /** The scheme a fresh module reports, also the default scheme of every presentation call. */
  const DefaultScheme: string := "granite://rn"

  /** The module's stored properties. */
  datatype GraniteModule = GraniteModule(initialScheme: string, bridge: Option<Bridge>)

  /** A module as the bridge first instantiates it. */
  const Fresh: GraniteModule := GraniteModule(DefaultScheme, None)

  /** `schemeUri`: always the stored `initialScheme`. */
  function SchemeUri(g: GraniteModule): (s: string)
    ensures s == g.initialScheme
  {
    g.initialScheme
  }

  /** `setScheme`: afterwards `schemeUri` reports `scheme`; the bridge is kept. */
  function SetScheme(g: GraniteModule, scheme: string): (g': GraniteModule)
    ensures SchemeUri(g') == scheme
    ensures g'.bridge == g.bridge
  {
    g.(initialScheme := scheme)
  }

  /** `configureBridge`: afterwards the module holds `b`; the scheme is kept. */
  function ConfigureBridge(g: GraniteModule, b: Bridge): (g': GraniteModule)
    ensures g'.bridge == Some(b)
    ensures SchemeUri(g') == SchemeUri(g)
  {
    g.(bridge := Some(b))
  }

  /**
   `createGraniteViewController`: nil while no bridge is configured;
   otherwise a controller titled with the app name whose root view runs the
   app on the configured bridge, with missing properties read as empty.
   */
  function CreateGraniteViewController(g: GraniteModule, appName: string, props: Option<Props>)
    : (r: Option<GraniteController>)
    ensures r.None? <==> g.bridge.None?
    ensures r.Some? ==> && r.value.title == appName
                        && r.value.root.bridge == g.bridge.value
                        && r.value.root.moduleName == appName
                        && r.value.root.initialProperties == Some(if props.Some? then props.value else map[])
  {
    match g.bridge
    case None => None
    case Some(b) =>
      var p := match props case Some(q) => q case None => map[];
      Some(GraniteController(appName, RootView(b, appName, Some(p))))
  }

  /** A fresh module reports the default scheme and cannot build controllers yet. */
  lemma FreshModule(appName: string, props: Option<Props>)
    ensures SchemeUri(Fresh) == DefaultScheme
    ensures CreateGraniteViewController(Fresh, appName, props).None?
  {
  }

  /** The last scheme set wins. */
  lemma SetSchemeLastWins(g: GraniteModule, a: string, b: string)
    ensures SetScheme(SetScheme(g, a), b) == SetScheme(g, b)
  {
  }

  /** Once a bridge is configured the module builds controllers on exactly that bridge. */
  lemma ConfiguredModuleBuilds(g: GraniteModule, b: Bridge, appName: string, props: Option<Props>)
    ensures CreateGraniteViewController(ConfigureBridge(g, b), appName, props).Some?
    ensures CreateGraniteViewController(ConfigureBridge(g, b), appName, props).value.root.bridge == b
  {
  }
}
