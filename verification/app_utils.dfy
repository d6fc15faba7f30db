/**
 * The web UI's app helpers: which parameter types carry binary data, and the
 * app-engine paths that install and delete an app.
 */
module AppUtils {
  import opened Wrappers
  import Text

  /** `BINARY_TYPES`: the parameter types whose values are files. */
  const BINARY_TYPES: seq<string> := ["file", "image"]

  /** A parameter type: its id and, for an array, the id of its element
      type when the server sent one. */
  datatype ParamType = ParamType(id: string, subTypeId: Option<string>)

  /** `hasBinaryType`: an array is binary when its elements are; reading the
      element type of an array that has none throws (None). */
  function HasBinaryType(t: ParamType): (r: Option<bool>)
    ensures t.id != "array" ==> r == Some(t.id == "file" || t.id == "image")
    ensures t.id == "array" && t.subTypeId.Some? ==>
      r == Some(t.subTypeId.value == "file" || t.subTypeId.value == "image")
    ensures r.None? <==> t.id == "array" && t.subTypeId.None?
  {
    if t.id == "array" then
      match t.subTypeId
      case None => None
      case Some(sub) => Some(sub in BINARY_TYPES)
    else Some(t.id in BINARY_TYPES)
  }

  /** An array type is never binary itself, only through its elements. */
  lemma ArrayNotBinaryItself()
    ensures "array" !in BINARY_TYPES
    ensures HasBinaryType(ParamType("array", Some("array"))) == Some(false)
  {
  }

  /** An app as its install and delete requests see it. */
  datatype App = App(namespace: string, version: string)

  /** "<namespace>/<version>", the app's path under `/app-engine/tasks/`. */
  function AppPath(app: App): (r: string)
    ensures |r| == |app.namespace| + 1 + |app.version|
    ensures Text.StartsWith(r, app.namespace) && r[|app.namespace|] == '/'
  {
    var r := app.namespace + "/" + app.version;
    assert r[..|app.namespace|] == app.namespace;
    r
  }

  /** A namespace and a version without '/' can be read back from the path. */
  lemma AppPathSplits(app: App)
    requires '/' !in app.namespace && '/' !in app.version
    ensures Text.RawSplit(AppPath(app), "/") == [app.namespace, app.version]
  {
    var parts := [app.namespace, app.version];
    assert Text.Join(parts, "/") == AppPath(app) by {
      assert parts[1..] == [app.version];
    }
    Text.RawSplitJoin(parts, '/');
  }

  const TASKS_PREFIX: string := "/app-engine/tasks/"

  /** `deleteApp`'s request path. */
  function DeletePath(app: App): (r: string)
    ensures Text.StartsWith(r, TASKS_PREFIX)
    ensures r[|TASKS_PREFIX|..] == AppPath(app)
  {
    var r := TASKS_PREFIX + AppPath(app);
    assert r[..|TASKS_PREFIX|] == TASKS_PREFIX;
    r
  }

  /** `installApp`'s request path: the delete path followed by "/install". */
  function InstallPath(app: App): (r: string)
    ensures Text.StartsWith(r, DeletePath(app)) && Text.EndsWith(r, "/install")
    ensures |r| == |DeletePath(app)| + 8
  {
    var d := DeletePath(app);
    var r := d + "/install";
    assert r[..|d|] == d;
    assert r[|r| - 8..] == "/install";
    r
  }

  /** Two apps whose namespaces and versions hold no '/' share an install
      path only if they are the same app. */
  lemma InstallPathInjective(a: App, b: App)
    requires '/' !in a.namespace && '/' !in a.version
    requires '/' !in b.namespace && '/' !in b.version
    requires InstallPath(a) == InstallPath(b)
    ensures a == b
  {
    var n := |InstallPath(a)|;
    assert DeletePath(a) == InstallPath(a)[..n - 8];
    assert DeletePath(b) == InstallPath(b)[..n - 8];
    assert AppPath(a) == DeletePath(a)[|TASKS_PREFIX|..];
    assert AppPath(b) == DeletePath(b)[|TASKS_PREFIX|..];
    AppPathSplits(a);
    AppPathSplits(b);
  }

  datatype Notice = Notified(key: string) | Warned(key: string)

  /** `installApp`: the install request's outcome is a parameter (true when
      the request succeeded); the result is that outcome, with the matching
      notification. */
  function InstallApp(app: App, requestSucceeded: bool): (r: (bool, Notice))
    ensures r.0 <==> r.1.Notified?
    ensures r.0 <==> requestSucceeded
    ensures r.1.key == (if requestSucceeded then "notify-success-app-installation" else "notify-error-app-installation")
  {
    if requestSucceeded then (true, Notified("notify-success-app-installation"))
    else (false, Warned("notify-error-app-installation"))
  }

  /** `deleteApp`: no result, only the notification. */
  function DeleteApp(app: App, requestSucceeded: bool): (r: Notice)
    ensures r.Notified? <==> requestSucceeded
  {
    if requestSucceeded then Notified("notify-success-app-deletion") else Warned("notify-error-app-deletion")
  }
}
