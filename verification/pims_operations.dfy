/**
 * The PIMS upload handshake with the Cytomine core (`connexion_to_core`): the
 * query parameters are checked and parsed, the caller's signed request is
 * verified against the private key the core holds for the caller's public
 * key, and the storage, projects and user properties of the upload are
 * resolved. Also the name under which an exported file or upload is served.
 *
 * The core is reduced to what the handshake asks of it (whether PIMS itself
 * is logged in, the private key of each public key, the storages and projects
 * that exist); the HMAC signature is a parameter.
 */
module PimsOperations {
  import opened Wrappers
  import Text
  import CytomineAuth

  datatype OpError =
    | BadRequest(detail: string)
    | AuthenticationFailed(detail: string)
    | Problem(detail: string)
    /** A lookup the code does not guard (`cyto_keys["privateKey"]`). */
    | Crash

  // ---------------------------------------------------------------- parameters

  /** The characters Python's `int()` strips around a number (ASCII ones). */
  predicate IsPySpace(c: char) {
    c == ' ' || 0x09 <= c as int <= 0x0d || 0x1c <= c as int <= 0x1f
  }

  function PyStrip(s: string): (r: string)
    ensures |r| <= |s|
    ensures |r| > 0 ==> !IsPySpace(r[0]) && !IsPySpace(r[|r| - 1])
    ensures |s| > 0 && !IsPySpace(s[0]) && !IsPySpace(s[|s| - 1]) ==> r == s
    decreases |s|
  {
    if |s| > 0 && IsPySpace(s[0]) then PyStrip(s[1..])
    else if |s| > 0 && IsPySpace(s[|s| - 1]) then PyStrip(s[..|s| - 1])
    else s
  }

  /** Position `i` of grouped text: a digit, or an underscore after a digit. */
  predicate GroupOk(b: string, i: nat)
    requires i < |b|
  {
    Text.IsDigit(b[i]) || (b[i] == '_' && 0 < i && Text.IsDigit(b[i - 1]))
  }

  /** Digits in groups joined by single underscores (PEP 515): every
      underscore follows a digit, and the text ends in a digit. */
  predicate Grouped(b: string) {
    |b| > 0 && Text.IsDigit(b[|b| - 1]) && forall i :: 0 <= i < |b| ==> GroupOk(b, i)
  }

  /** The text with every underscore removed and the other characters kept in order. */
  function WithoutUnderscores(b: string): string {
    if |b| == 0 then "" else (if b[0] == '_' then "" else [b[0]]) + WithoutUnderscores(b[1..])
  }

  /** The digits of grouped text with its underscores dropped, or None when
      the text is not grouped. */
  function Ungroup(b: string): (r: Option<string>)
    ensures r.Some? <==> Grouped(b)
    ensures r.Some? ==> |r.value| > 0 && Text.AllDigits(r.value)
    decreases |b|
  {
    if |b| == 0 then None
    else if !Text.IsDigit(b[0]) then
      assert !GroupOk(b, 0);
      None
    else if |b| == 1 then
      assert GroupOk(b, 0);
      Some(b)
    else
      var rest := if b[1] == '_' then b[2..] else b[1..];
      GroupedCons(b);
      match Ungroup(rest)
      case None => None
      case Some(ds) =>
        assert forall i :: 1 <= i < |[b[0]] + ds| ==> ([b[0]] + ds)[i] == ds[i - 1];
        Some([b[0]] + ds)
  }

  /** Dropping the underscores after a leading digit and the optional underscore
      that follows it. */
  lemma WithoutUnderscoresCons(b: string)
    requires |b| >= 2 && b[0] != '_'
    ensures WithoutUnderscores(b) == [b[0]] + WithoutUnderscores(if b[1] == '_' then b[2..] else b[1..])
  {
    if b[1] == '_' {
      assert b[1..][0] == '_' && b[1..][1..] == b[2..];
    }
  }

  /** What `Ungroup` gives back is the text with its underscores dropped. */
  lemma {:induction false} UngroupValue(b: string)
    ensures Ungroup(b).Some? ==> Ungroup(b).value == WithoutUnderscores(b)
    decreases |b|
  {
    if |b| >= 2 && Text.IsDigit(b[0]) {
      var rest := if b[1] == '_' then b[2..] else b[1..];
      UngroupValue(rest);
      WithoutUnderscoresCons(b);
    }
  }

  /** Grouped text of two or more characters is a digit, an optional
      underscore, and grouped text. */
  lemma GroupedCons(b: string)
    requires |b| >= 2 && Text.IsDigit(b[0])
    ensures Grouped(b) <==> Grouped(if b[1] == '_' then b[2..] else b[1..])
  {
    var k := if b[1] == '_' then 2 else 1;
    var rest := b[k..];
    assert GroupOk(b, 0);
    assert k == 2 ==> GroupOk(b, 1);
    forall i | 0 <= i < |rest|
      ensures GroupOk(rest, i) <==> GroupOk(b, i + k)
    {
      assert rest[i] == b[i + k];
      if i > 0 {
        assert rest[i - 1] == b[i + k - 1];
      }
    }
    if |rest| > 0 {
      assert rest[|rest| - 1] == b[|b| - 1];
    }
    if Grouped(rest) {
      forall j | 0 <= j < |b|
        ensures GroupOk(b, j)
      {
        if j >= k {
          assert GroupOk(rest, j - k);
        }
      }
    }
    if Grouped(b) && |rest| > 0 {
      forall i | 0 <= i < |rest|
        ensures GroupOk(rest, i)
      {
        assert GroupOk(b, i + k);
      }
    }
  }

  /** The text after an optional leading sign. */
  function Unsigned(t: string): string {
    if |t| > 0 && (t[0] == '-' || t[0] == '+') then t[1..] else t
  }

  /** Python's `int(s)` on ASCII text: surrounding blanks, an optional sign,
      then digits, which may be grouped by single underscores; None stands
      for ValueError. */
  function PyInt(s: string): (r: Option<int>)
    ensures r.Some? <==> Grouped(Unsigned(PyStrip(s)))
    ensures r.Some? && PyStrip(s)[0] == '-' ==> r.value <= 0
    ensures r.Some? && PyStrip(s)[0] != '-' ==> r.value >= 0
  {
    var t := PyStrip(s);
    if |t| == 0 then None
    else
      match Ungroup(Unsigned(t))
      case None => None
      case Some(digits) => Some(if t[0] == '-' then 0 - Text.DigitsValue(digits) else Text.DigitsValue(digits))
  }

  /** The value `int()` gives is that of the digits with the underscores
      dropped, negated after a '-'. */
  lemma PyIntValue(s: string)
    ensures PyInt(s).Some? ==> (Text.AllDigits(WithoutUnderscores(Unsigned(PyStrip(s))))
      && PyInt(s).value == (if PyStrip(s)[0] == '-' then -1 else 1) * Text.DigitsValue(WithoutUnderscores(Unsigned(PyStrip(s)))))
  {
    UngroupValue(Unsigned(PyStrip(s)));
  }

  /** Plain digits are their own grouping. */
  lemma {:induction false} UngroupDigits(b: string)
    requires |b| > 0 && Text.AllDigits(b)
    ensures Ungroup(b) == Some(b)
    decreases |b|
  {
    if |b| > 1 {
      assert Text.AllDigits(b[1..]) by {
        assert forall i :: 0 <= i < |b| - 1 ==> b[1..][i] == b[i + 1];
      }
      UngroupDigits(b[1..]);
      assert [b[0]] + b[1..] == b;
    }
  }

  /** Underscores between digit groups are dropped: "1_000" is 1000. */
  lemma PyIntGroups()
    ensures PyInt("1_000") == Some(1000)
  {
    assert PyStrip("1_000") == "1_000";
    UngroupDigits("000");
    assert "1_000"[1] == '_' && "1_000"[2..] == "000";
    assert ['1'] + "000" == "1000";
    assert Ungroup("1_000") == Some("1000");
    assert Text.DigitsValue("1000") == 1000 by {
      assert "1000"[..3] == "100" && "100"[..2] == "10" && "10"[..1] == "1" && "1"[..0] == "";
    }
  }

  /** Every group counts: "1_2_3" is 123. */
  lemma PyIntThreeGroups()
    ensures PyInt("1_2_3") == Some(123)
  {
    assert PyStrip("1_2_3") == "1_2_3";
    assert "1_2_3"[2..] == "2_3" && "2_3"[2..] == "3";
    assert Ungroup("3") == Some("3");
    assert "2_3"[1] == '_' && ['2'] + "3" == "23";
    assert Ungroup("2_3") == Some("23");
    assert "1_2_3"[1] == '_' && ['1'] + "23" == "123";
    assert Ungroup("1_2_3") == Some("123");
    assert Text.DigitsValue("123") == 123 by {
      assert "123"[..2] == "12" && "12"[..1] == "1" && "1"[..0] == "";
    }
  }

  /** Leading zeros are digits like any other and a '+' sign is dropped:
      "007" is 7 and "+5" is 5. */
  lemma PyIntZerosAndPlus()
    ensures PyInt("007") == Some(7)
    ensures PyInt("+5") == Some(5)
  {
    assert PyStrip("007") == "007";
    UngroupDigits("007");
    assert Text.DigitsValue("007") == 7 by {
      assert "007"[..2] == "00" && "00"[..1] == "0" && "0"[..0] == "";
    }
    assert PyStrip("+5") == "+5";
    assert Unsigned("+5") == "5";
    UngroupDigits("5");
  }

  /** A doubled, leading or trailing underscore is refused. */
  lemma PyIntBadGroups()
    ensures PyInt("1__0").None? && PyInt("_1").None? && PyInt("1_").None?
  {
    assert PyStrip("1__0") == "1__0";
    assert !Grouped("1__0") by { assert !GroupOk("1__0", 2); }
    assert PyStrip("_1") == "_1";
    assert !Grouped("_1") by { assert !GroupOk("_1", 0); }
    assert PyStrip("1_") == "1_";
    assert !Grouped("1_") by { assert !Text.IsDigit("1_"[1]); }
  }

  /** `int(str(n)) == n`. */
  lemma PyIntOfRendered(n: int)
    ensures PyInt(Text.IntToString(n)) == Some(n)
  {
    var s := Text.IntToString(n);
    Text.IntToStringIsSignedDigits(n);
    assert Text.IsDigit(s[|s| - 1]) by {
      if n < 0 {
        assert s[|s| - 1] == s[1..][|s| - 2];
      }
    }
    assert PyStrip(s) == s;
    if n < 0 {
      assert s[1..] == Text.NatToString(-n);
      UngroupDigits(s[1..]);
    } else {
      assert Text.IsDigit(s[0]);
      UngroupDigits(s);
    }
  }

  /** Blanks around an id are accepted. */
  lemma PyIntIgnoresBlanks(n: nat)
    ensures PyInt(" " + Text.IntToString(n) + "\n") == Some(n)
  {
    var s := Text.IntToString(n);
    var padded := " " + s + "\n";
    assert PyStrip(padded) == PyStrip(s + "\n") by {
      assert padded[1..] == s + "\n";
    }
    assert PyStrip(s + "\n") == PyStrip(s) by {
      assert (s + "\n")[..|s + "\n"| - 1] == s;
      assert !IsPySpace((s + "\n")[0]) by { assert Text.IsDigit(s[0]); }
    }
    PyIntOfRendered(n);
  }

  /** The storage: `idStorage` when given, else `storage`; a missing value or
      0 is a bad request. */
  function ResolveStorage(idStorage: Option<int>, storage: Option<int>): (r: Result<int, OpError>)
    ensures r.Success? <==> (if idStorage.Some? then idStorage.value != 0 else storage.Some? && storage.value != 0)
    ensures r.Success? ==> r.value == (if idStorage.Some? then idStorage.value else storage.value) && r.value != 0
    ensures r.Failure? ==> r.error == BadRequest("idStorage or storage parameter missing.")
  {
    var id := if idStorage.Some? then idStorage else storage;
    if id.None? || id.value == 0 then Failure(BadRequest("idStorage or storage parameter missing."))
    else Success(id.value)
  }

  /** Every comma-separated piece as an integer, or None at the first that is
      not one. */
  function ParseIds(pieces: seq<string>): (r: Option<seq<int>>)
    ensures r.Some? <==> forall i :: 0 <= i < |pieces| ==> PyInt(pieces[i]).Some?
    ensures r.Some? ==> (|r.value| == |pieces|
      && forall i :: 0 <= i < |pieces| ==> Some(r.value[i]) == PyInt(pieces[i]))
  {
    if pieces == [] then Some([])
    else
      assert forall i :: 1 <= i < |pieces| ==> pieces[i] == pieces[1..][i - 1];
      match PyInt(pieces[0])
      case None => None
      case Some(n) =>
        match ParseIds(pieces[1..])
        case None => None
        case Some(rest) => Some([n] + rest)
  }

  /** The projects: `idProject` when given (even empty), else `projects`; an
      absent or empty value gives no project, otherwise every piece between
      commas must be an integer. */
  function ParseProjects(idProject: Option<string>, projects: Option<string>): (r: Result<seq<int>, OpError>)
    ensures var p := if idProject.Some? then idProject else projects;
      (p.None? || p.value == "") ==> r == Success([])
    ensures var p := if idProject.Some? then idProject else projects;
      (p.Some? && p.value != "") ==> (r.Success? <==> ParseIds(Text.RawSplit(p.value, ",")).Some?)
    ensures r.Failure? ==> r.error == BadRequest("Invalid projects or idProject parameter.")
  {
    var toParse := if idProject.Some? then idProject else projects;
    if toParse.None? || toParse.value == "" then Success([])
    else
      match ParseIds(Text.RawSplit(toParse.value, ","))
      case None => Failure(BadRequest("Invalid projects or idProject parameter."))
      case Some(ids) => Success(ids)
  }

  function Rendered(ids: seq<int>): (r: seq<string>)
    ensures |r| == |ids| && forall i :: 0 <= i < |ids| ==> r[i] == Text.IntToString(ids[i])
  {
    seq(|ids|, i requires 0 <= i < |ids| => Text.IntToString(ids[i]))
  }

  /** No rendered id holds a comma. */
  lemma RenderedFreeOfComma(ids: seq<int>)
    ensures forall k :: 0 <= k < |Rendered(ids)| ==> ',' !in Rendered(ids)[k]
  {
    var parts := Rendered(ids);
    forall k | 0 <= k < |parts|
      ensures ',' !in parts[k]
    {
      Text.IntToStringIsSignedDigits(ids[k]);
      var s := parts[k];
      forall j | 0 <= j < |s|
        ensures s[j] != ','
      {
        if ids[k] < 0 && j > 0 {
          assert s[j] == s[1..][j - 1];
        }
      }
    }
  }

  /** A client sending its project ids joined by commas gets them back. */
  lemma ProjectsRoundTrip(ids: seq<int>)
    requires |ids| >= 1
    ensures ParseProjects(Some(Text.Join(Rendered(ids), ",")), None) == Success(ids)
  {
    var parts := Rendered(ids);
    var joined := Text.Join(parts, ",");
    RenderedFreeOfComma(ids);
    Text.RawSplitJoin(parts, ',');
    assert joined != "" by {
      if |parts| == 1 {
        assert joined == parts[0];
      } else {
        assert joined == parts[0] + "," + Text.Join(parts[1..], ",");
      }
    }
    forall i | 0 <= i < |parts|
      ensures PyInt(parts[i]) == Some(ids[i])
    {
      PyIntOfRendered(ids[i]);
    }
    var parsed := ParseIds(parts).value;
    assert parsed == ids;
  }

  /** Python's `repr` of a list of strings, each quoted with single quotes
      and joined by ", ". */
  function PyListRepr(xs: seq<string>): string {
    "[" + Text.Join(seq(|xs|, i requires 0 <= i < |xs| => "'" + xs[i] + "'"), ", ") + "]"
  }

  /** `keys` and `values`, each split on commas (absent meaning none), paired
      up; different counts are a problem. */
  function UserProperties(keys: Option<string>, values: Option<string>): (r: Result<seq<(string, string)>, OpError>)
    ensures var ks := if keys.Some? then Text.RawSplit(keys.value, ",") else [];
      var vs := if values.Some? then Text.RawSplit(values.value, ",") else [];
      (r.Success? <==> |ks| == |vs|)
      && (r.Success? ==> |r.value| == |ks| && forall i :: 0 <= i < |ks| ==> r.value[i] == (ks[i], vs[i]))
    ensures r.Failure? ==> r.error.Problem?
  {
    var ks := if keys.Some? then Text.RawSplit(keys.value, ",") else [];
    var vs := if values.Some? then Text.RawSplit(values.value, ",") else [];
    if |ks| != |vs| then Failure(Problem("Keys " + PyListRepr(ks) + " and values " + PyListRepr(vs) + " have varying size."))
    else Success(seq(|ks|, i requires 0 <= i < |ks| => (ks[i], vs[i])))
  }

  /** An empty `keys` is one empty key, so it only pairs with a single value. */
  lemma EmptyKeysIsOneKey(value: string)
    requires ',' !in value
    ensures UserProperties(Some(""), Some(value)) == Success([("", value)])
    ensures UserProperties(Some(""), None).Failure?
  {
    Text.IndexOfCharAbsent(value, ',');
    assert Text.RawSplit("", ",") == [""];
    assert Text.RawSplit(value, ",") == [value];
    var r := UserProperties(Some(""), Some(value));
    assert r.Success? && |r.value| == 1 && r.value[0] == ("", value);
    assert r.value == [("", value)];
  }

  // ---------------------------------------------------------------- handshake

  /** What the handshake asks of the core. */
  datatype Core = Core(loggedIn: bool, privateKeys: map<string, string>, storages: set<int>, projects: set<int>)

  /** The resolved upload context. */
  datatype Connection = Connection(storage: int, projects: seq<int>, userProperties: seq<(string, string)>)

  /** The first project id the core does not know, if any. */
  function MissingProject(ids: seq<int>, known: set<int>): (r: Option<int>)
    ensures r.None? <==> forall i :: 0 <= i < |ids| ==> ids[i] in known
    ensures r.Some? ==> r.value !in known && r.value in ids
  {
    if ids == [] then None
    else if ids[0] !in known then Some(ids[0])
    else
      assert forall i :: 1 <= i < |ids| ==> ids[i] == ids[1..][i - 1];
      MissingProject(ids[1..], known)
  }

  /** `connexion_to_core`, its checks in order: the core URL, the storage
      parameter, the project parameter, the authorization header, PIMS's own
      login, the caller's private key, the signature, the storage, each
      project, and the user properties. */
  function ConnexionToCore(coreUrl: string, verb: string, headers: CytomineAuth.Headers,
                           idStorage: Option<int>, storage: Option<int>,
                           idProject: Option<string>, projects: Option<string>,
                           keys: Option<string>, values: Option<string>,
                           core: Core, sign: (string, string) -> string): (r: Result<Connection, OpError>)
    ensures coreUrl == "" ==> r == Failure(BadRequest("Internal URL core is missing."))
    ensures coreUrl != "" && ResolveStorage(idStorage, storage).Failure? ==> r == ResolveStorage(idStorage, storage).PropagateFailure()
    ensures r.Success? ==> (coreUrl != ""
      && Success(r.value.storage) == ResolveStorage(idStorage, storage)
      && Success(r.value.projects) == ParseProjects(idProject, projects)
      && Success(r.value.userProperties) == UserProperties(keys, values)
      && r.value.storage in core.storages
      && (forall i :: 0 <= i < |r.value.projects| ==> r.value.projects[i] in core.projects)
      && core.loggedIn
      && CytomineAuth.ParseAuthorizationHeader(headers).Some?
      && var (publicKey, signature) := CytomineAuth.ParseAuthorizationHeader(headers).value;
        publicKey in core.privateKeys
        && sign(core.privateKeys[publicKey], CytomineAuth.RequestToken(verb, headers)) == signature)
  {
    if coreUrl == "" then Failure(BadRequest("Internal URL core is missing."))
    else
      var storageId :- ResolveStorage(idStorage, storage);
      var projectIds :- ParseProjects(idProject, projects);
      match CytomineAuth.ParseAuthorizationHeader(headers)
      case None => Failure(AuthenticationFailed("Auth failed"))
      case Some((publicKey, signature)) =>
        if !core.loggedIn then Failure(AuthenticationFailed("PIMS authentication to Cytomine failed."))
        else if publicKey !in core.privateKeys then Failure(Crash)
        else if sign(core.privateKeys[publicKey], CytomineAuth.RequestToken(verb, headers)) != signature then
          Failure(AuthenticationFailed("Authentication to Cytomine failed"))
        else if storageId !in core.storages then
          Failure(Problem("Storage " + Text.IntToString(storageId) + " not found"))
        else
          match MissingProject(projectIds, core.projects)
          case Some(pid) => Failure(Problem("Project " + Text.IntToString(pid) + " not found"))
          case None =>
            var properties :- UserProperties(keys, values);
            Success(Connection(storageId, projectIds, properties))
  }

  /** A request whose signature does not match what the caller's key signs
      is refused, whatever its parameters. */
  lemma ForgedSignatureRefused(coreUrl: string, verb: string, headers: CytomineAuth.Headers,
                               idStorage: Option<int>, storage: Option<int>,
                               idProject: Option<string>, projects: Option<string>,
                               keys: Option<string>, values: Option<string>,
                               core: Core, sign: (string, string) -> string)
    requires CytomineAuth.ParseAuthorizationHeader(headers).Some?
    requires var (publicKey, signature) := CytomineAuth.ParseAuthorizationHeader(headers).value;
      publicKey in core.privateKeys && sign(core.privateKeys[publicKey], CytomineAuth.RequestToken(verb, headers)) != signature
    ensures ConnexionToCore(coreUrl, verb, headers, idStorage, storage, idProject, projects, keys, values, core, sign).Failure?
  {
  }

  // ---------------------------------------------------------------- export name

  /** The name a file or upload is exported under: the requested filename,
      else the path's name; a directory is served zipped, and its name gets
      ".zip" unless it already ends so. */
  function ExportName(filename: Option<string>, pathName: string, isDir: bool): (r: string)
    ensures var base := if filename.Some? then filename.value else pathName;
      r == base || (isDir && r == base + ".zip" && !Text.EndsWith(base, ".zip"))
    ensures isDir ==> Text.EndsWith(r, ".zip")
    ensures !isDir ==> r == (if filename.Some? then filename.value else pathName)
  {
    var base := if filename.Some? then filename.value else pathName;
    if isDir && !Text.EndsWith(base, ".zip") then
      assert (base + ".zip")[|base + ".zip"| - 4..] == ".zip";
      base + ".zip"
    else base
  }

  /** Exporting under the name an export was served with changes nothing. */
  lemma ExportNameIdempotent(filename: Option<string>, pathName: string, isDir: bool, other: string)
    ensures ExportName(Some(ExportName(filename, pathName, isDir)), other, isDir) == ExportName(filename, pathName, isDir)
  {
  }
}
