/**
 The closed set of Granite modules the host application can load, with the
 names, development ports and bundle locations fixed for each.
 */
module Catalog {
  import opened Common

  /** The supported modules (a `String`-backed, `CaseIterable` enum). */
  datatype Module = Home | Login | Profile

  /** `allCases`, in declaration order. */
  const AllCases: seq<Module> := [Home, Login, Profile]

  /** The enum's raw value. */
  function RawValue(m: Module): string {
    match m
    case Home => "home"
    case Login => "login"
    case Profile => "profile"
  }

  /** `init?(rawValue:)`: the module whose raw value is `s`, if any. */
  function FromRawValue(s: string): (r: Option<Module>)
    ensures r.Some? ==> RawValue(r.value) == s
  {
    if s == "home" then Some(Home)
    else if s == "login" then Some(Login)
    else if s == "profile" then Some(Profile)
    else None
  }

  /** The module's position in `allCases`. */
  function CaseIndex(m: Module): (i: nat)
    ensures i < |AllCases| && AllCases[i] == m
  {
    match m
    case Home => 0
    case Login => 1
    case Profile => 2
  }

  /** The bundle name: the raw value interpolated into a string, so it names the module back. */
  function BundleName(m: Module): (n: string)
    ensures FromRawValue(n) == Some(m)
  {
    RawValue(m)
  }

  /** The app name the root view is registered under; it names the module back. */
  function AppName(m: Module): (n: string)
    ensures FromRawValue(n) == Some(m)
  {
    RawValue(m)
  }

  /** The port of the module's own development packager: 8081 onwards in `allCases` order. */
  function DevPort(m: Module): (p: nat)
    ensures p == 8081 + CaseIndex(m)
    ensures 8081 <= p <= 8083
  {
    match m
    case Home => 8081
    case Login => 8082
    case Profile => 8083
  }

  /** The host a module's packager runs on. */
  const DevHost: string := "localhost"

  /**
   `bundleURL`: in a debug build the shared URL provider is pointed at the
   module's own port and asked for the `index` root; in a release build every
   module loads the packaged `main.jsbundle`. Either lookup may yield nil.
   */
  function BundleUrl(m: Module, env: Env): (r: Option<Url>)
    ensures env.debug ==> (r.Some? <==> env.devUrlResolves)
    ensures !env.debug ==> (r.Some? <==> env.packagedBundlePresent)
    ensures r.Some? && env.debug ==> r.value.DevServer? && r.value.host == DevHost
                                      && r.value.port == DevPort(m) && r.value.root == DevBundleRoot
    ensures r.Some? && !env.debug ==> r.value == PackagedBundle
  {
    if env.debug then
      if env.devUrlResolves then Some(DevServer(DevHost, DevPort(m), DevBundleRoot)) else None
    else
      if env.packagedBundlePresent then Some(PackagedBundle) else None
  }

  /** Raw values round-trip through `init?(rawValue:)`. */
  lemma RawValueRoundTrip(m: Module)
    ensures FromRawValue(RawValue(m)) == Some(m)
  {
  }

  /** `init?(rawValue:)` succeeds exactly on the three raw values. */
  lemma FromRawValueExact(s: string)
    ensures FromRawValue(s).Some? <==> exists m :: RawValue(m) == s
  {
  }

  /** Distinct modules have distinct raw values, so raw values can stand in for modules as keys. */
  lemma RawValueInjective(a: Module, b: Module)
    ensures RawValue(a) == RawValue(b) ==> a == b
  {
  }

  /** The bundle name and the app name are both the raw value. */
  lemma NamesAreRawValue(m: Module)
    ensures BundleName(m) == RawValue(m) && AppName(m) == RawValue(m)
  {
  }

  /** `allCases` lists every module exactly once. */
  lemma AllCasesEnumerates(m: Module)
    ensures m in AllCases
    ensures forall i, j :: 0 <= i < j < |AllCases| ==> AllCases[i] != AllCases[j]
  {
  }

  /** Ports are handed out from 8081 in declaration order, so no two modules share one. */
  lemma DevPortsByCaseOrder(a: Module, b: Module)
    ensures DevPort(a) == 8081 + CaseIndex(a)
    ensures DevPort(a) == DevPort(b) ==> a == b
  {
  }

  /** In a debug build distinct modules load from distinct locations. */
  lemma DebugUrlsDistinct(a: Module, b: Module, env: Env)
    requires env.debug && env.devUrlResolves && a != b
    ensures BundleUrl(a, env).Some? && BundleUrl(b, env).Some?
    ensures BundleUrl(a, env) != BundleUrl(b, env)
  {
  }

  /** In a release build all modules share the single packaged bundle. */
  lemma ReleaseUrlsShared(a: Module, b: Module, env: Env)
    requires !env.debug
    ensures BundleUrl(a, env) == BundleUrl(b, env)
  {
  }
}
