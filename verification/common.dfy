/**
 Values shared by every part of the model: optional values and results, the
 bundle locations a bridge can be built from, the opaque bridge itself, and
 the answers the platform gives on a single call.
 */
module Common {

  /** A Swift optional: nil or a value. */
  datatype Option<+T> = None | Some(value: T)

  /** Either a value or the error the Swift code reports, often by `fatalError` or a failed force-unwrap. */
  datatype Result<+T, +E> = Ok(value: T) | Err(error: E)

  /** A bundle location, as far as the model needs to tell locations apart. */
  datatype Url =
    | DevServer(host: string, port: nat, root: string)  // a Metro packager endpoint serving `root`
    | BundleResource(name: string, ext: string)         // a file packaged in the application bundle

  /** The packaged bundle every release build loads: `main.jsbundle`. */
  const PackagedBundle: Url := BundleResource("main", "jsbundle")

  /** The bundle root the development packager is asked for. */
  const DevBundleRoot: string := "index"

  /** The two components that build bridges, each numbering its own. */
  datatype Issuer = ByModuleManager | ByGraniteManager

  /**
   An `RCTBridge`. Its internals belong to React Native; the model keeps the
   component that built it, a number that component never hands out twice,
   and the bundle location it was built from.
   */
  datatype Bridge = Bridge(issuer: Issuer, id: nat, url: Url)

  /**
   What the platform answers during one call.
   - `debug`: whether the binary was built with `DEBUG`;
   - `packagerHost`/`packagerPort`: the location the shared `RCTBundleURLProvider`
     settings currently point at;
   - `devUrlResolves`: whether the provider yields a bundle URL at all;
   - `packagedBundlePresent`: whether `main.jsbundle` is in the application bundle;
   - `bridgeBuilds`: whether `RCTBridge(bundleURL:…)` returns a bridge rather than nil.
   */
  datatype Env = Env(
    debug: bool,
    packagerHost: string,
    packagerPort: nat,
    devUrlResolves: bool,
    packagedBundlePresent: bool,
    bridgeBuilds: bool)

  /** The `[String: Any]` initial properties, with values kept opaque as strings. */
  type Props = map<string, string>

  /** An `RCTRootView`: the bridge it runs on, the registered app name and its properties. */
  datatype RootView = RootView(bridge: Bridge, moduleName: string, initialProperties: Option<Props>)

  /** A `GraniteViewController`: its title and the root view it shows. */
  datatype GraniteController = GraniteController(title: string, root: RootView)
}
