/**
 * The web UI's current-project store: the open project, its managers and
 * members, and the permission getters that decide what the current user may
 * edit or manage.
 *
 * The current user comes from the current-user store and is passed in. The
 * fetch actions are network calls; only the choice of managers among the
 * fetched members is modelled.
 */
module CurrentProject {
  import opened Wrappers
  import Text

  /** `ProjectMemberRole`, as far as the store tells roles apart. */
  datatype Role = Manager | Representative | Contributor

  datatype User = User(id: int, adminByNow: bool, guestByNow: bool, role: Role)

  datatype Project = Project(id: int, isReadOnly: bool, isRestricted: bool, ontology: Option<int>)

  datatype ProjectState = ProjectState(
    project: Option<Project>,
    configUI: map<string, string>,
    ontology: Option<int>,
    managers: seq<User>,
    members: seq<User>,
    currentViewer: Option<string>)

  /** `getDefaultState`. */
  const DEFAULT: ProjectState := ProjectState(None, map[], None, [], [], None)

  /** `resetState`: every field back to its default, whatever the state was. */
  function ResetState(st: ProjectState): (r: ProjectState)
    ensures r.project.None? && r.ontology.None? && r.currentViewer.None?
    ensures r.managers == [] && r.members == [] && r.configUI == map[]
  {
    DEFAULT
  }

  /** The managers among the fetched members: managers and representatives,
      in member order. */
  function ManagersOf(members: seq<User>): (r: seq<User>)
    ensures forall u :: u in r <==> u in members && (u.role == Manager || u.role == Representative)
    ensures |r| <= |members|
  {
    if members == [] then []
    else
      var rest := ManagersOf(members[1..]);
      assert forall u :: u in members <==> u == members[0] || u in members[1..];
      if members[0].role == Manager || members[0].role == Representative then [members[0]] + rest else rest
  }

  predicate IsManager(st: ProjectState, user: User) {
    exists i :: 0 <= i < |st.managers| && st.managers[i].id == user.id
  }

  /** `canEditLayer`: false without a user or a project; true for an admin
      or a manager who is not a guest; otherwise the project must be
      writable and the layer the user's own or the project unrestricted. */
  function CanEditLayer(st: ProjectState, user: Option<User>, idLayer: int): (r: bool)
    ensures user.None? || st.project.None? ==> !r
    ensures user.Some? && st.project.Some? && user.value.adminByNow ==> r
    ensures user.Some? && st.project.Some? && !user.value.guestByNow && IsManager(st, user.value) ==> r
    ensures (user.Some? && st.project.Some? && !st.project.value.isReadOnly
             && (idLayer == user.value.id || !st.project.value.isRestricted)) ==> r
    ensures r && !user.value.adminByNow && (user.value.guestByNow || !IsManager(st, user.value)) ==>
      (!st.project.value.isReadOnly && (idLayer == user.value.id || !st.project.value.isRestricted))
  {
    match (user, st.project)
    case (Some(u), Some(p)) =>
      var isManager := IsManager(st, u);
      (u.adminByNow || (!u.guestByNow && isManager))
      || (!p.isReadOnly && (idLayer == u.id || !p.isRestricted))
    case _ => false
  }

  /** `canEditImage`: as `canEditLayer`, with the image's owner as the layer,
      except that off the admin and manager path a guest may not edit. */
  function CanEditImage(st: ProjectState, user: Option<User>, imageUser: int): (r: bool)
    ensures user.None? || st.project.None? ==> !r
    ensures user.Some? && st.project.Some? && user.value.adminByNow ==> r
    ensures user.Some? && st.project.Some? && !user.value.guestByNow && IsManager(st, user.value) ==> r
    ensures (user.Some? && st.project.Some? && !user.value.guestByNow && !st.project.value.isReadOnly
             && (imageUser == user.value.id || !st.project.value.isRestricted)) ==> r
    ensures r && !user.value.adminByNow && (user.value.guestByNow || !IsManager(st, user.value)) ==>
      (!user.value.guestByNow && !st.project.value.isReadOnly
      && (imageUser == user.value.id || !st.project.value.isRestricted))
  {
    match (user, st.project)
    case (Some(u), Some(p)) =>
      var isManager := IsManager(st, u);
      (u.adminByNow || (!u.guestByNow && isManager))
      || (!u.guestByNow && !p.isReadOnly && (imageUser == u.id || !p.isRestricted))
    case _ => false
  }

  /** Image rights are layer rights with guests left out of the last path:
      the same for a non-guest, never more for a guest. */
  lemma ImageRightsAreLayerRights(st: ProjectState, user: Option<User>, owner: int)
    ensures CanEditImage(st, user, owner) ==> CanEditLayer(st, user, owner)
    ensures user.Some? && !user.value.guestByNow ==> (CanEditImage(st, user, owner) <==> CanEditLayer(st, user, owner))
  {
  }

  /** `canManageProject`: an admin, or a non-guest among the managers. */
  function CanManageProject(st: ProjectState, user: Option<User>): (r: bool)
    ensures r <==> user.Some? && (user.value.adminByNow || (!user.value.guestByNow && IsManager(st, user.value)))
  {
    match user
    case None => false
    case Some(u) => u.adminByNow || (!u.guestByNow && IsManager(st, u))
  }

  /** Whoever may manage a project may edit every layer of it. */
  lemma ManagersEditEveryLayer(st: ProjectState, user: Option<User>, idLayer: int)
    requires st.project.Some? && CanManageProject(st, user)
    ensures CanEditLayer(st, user, idLayer)
  {
  }

  // ---------------------------------------------------------------- annotations

  /** The annotation type, as far as the getter tells types apart. */
  datatype AnnotationKind = Reviewed | UserAnnotation | AlgoAnnotation

  datatype Annotation = Annotation(kind: AnnotationKind, user: int, reviewUser: int)

  /** `canEditAnnot` as evidently intended: a reviewed annotation by an admin
      or by its non-guest reviewer; any other by whoever may edit its
      layer. */
  function CanEditAnnot(st: ProjectState, user: Option<User>, annot: Annotation): (r: bool)
    ensures user.None? ==> !r
    ensures annot.kind == Reviewed && user.Some? ==>
      (r <==> user.value.adminByNow || (!user.value.guestByNow && annot.reviewUser == user.value.id))
    ensures annot.kind != Reviewed ==> r == CanEditLayer(st, user, annot.user)
  {
    match user
    case None => false
    case Some(u) =>
      if annot.kind == Reviewed then u.adminByNow || (!u.guestByNow && annot.reviewUser == u.id)
      else CanEditLayer(st, user, annot.user)
  }

  /** `canEditAnnot` as written: the non-reviewed path calls
      `this.canEditLayer` inside arrow functions, where `this` is the module's
      `undefined`, so it throws (None). */
  function CanEditAnnotAsWritten(st: ProjectState, user: Option<User>, annot: Annotation): (r: Option<bool>)
    ensures user.None? ==> r == Some(false)
    ensures annot.kind == Reviewed ==> r == Some(CanEditAnnot(st, user, annot))
  {
    match user
    case None => Some(false)
    case Some(u) =>
      if annot.kind == Reviewed then Some(u.adminByNow || (!u.guestByNow && annot.reviewUser == u.id))
      else None
  }

  /** As written, a signed-in user asking about any annotation that is not
      reviewed gets a TypeError, even an admin, whom the intended rule
      always lets edit. */
  lemma NonReviewedThrowsAsWritten(st: ProjectState, u: User, annot: Annotation)
    requires annot.kind != Reviewed && u.adminByNow && st.project.Some?
    ensures CanEditAnnotAsWritten(st, Some(u), annot).None?
    ensures CanEditAnnot(st, Some(u), annot)
  {
  }

  /** A reviewed annotation: the reviewer's right does not depend on the
      layer, so project managers who are not the reviewer cannot edit it. */
  lemma ReviewedOnlyByReviewer(st: ProjectState, u: User, annot: Annotation)
    requires annot.kind == Reviewed && !u.adminByNow && annot.reviewUser != u.id
    ensures !CanEditAnnot(st, Some(u), annot)
  {
  }

  // ---------------------------------------------------------------- getters

  /** `contributors`: the members whose id is no manager's, in member order. */
  function Contributors(st: ProjectState): (r: seq<User>)
    ensures forall u :: u in r <==> u in st.members && !IsManager(st, u)
    ensures |r| <= |st.members|
  {
    FilterNonManagers(st, st.members)
  }

  function FilterNonManagers(st: ProjectState, users: seq<User>): (r: seq<User>)
    ensures forall u :: u in r <==> u in users && !IsManager(st, u)
    ensures |r| <= |users|
  {
    if users == [] then []
    else
      var rest := FilterNonManagers(st, users[1..]);
      assert forall u :: u in users <==> u == users[0] || u in users[1..];
      if IsManager(st, users[0]) then rest else [users[0]] + rest
  }

  /** `currentProjectModule`: "projects/<id>/" for the open project. */
  function CurrentProjectModule(st: ProjectState): (r: Option<string>)
    ensures r.None? <==> st.project.None?
    ensures r.Some? ==> Text.StartsWith(r.value, "projects/") && Text.EndsWith(r.value, "/") && |r.value| > 10
  {
    match st.project
    case None => None
    case Some(p) =>
      var r := "projects/" + Text.IntToString(p.id) + "/";
      assert r[..9] == "projects/";
      Some(r)
  }

  /** The project's id can be read back from its module path: the text
      between "projects/" and the closing '/' parses to it. */
  lemma ProjectModuleNamesProject(st: ProjectState)
    requires st.project.Some? && Text.LONG_MIN <= st.project.value.id <= Text.LONG_MAX
    ensures var m := CurrentProjectModule(st).value;
      Text.ParseLong(m[9..|m| - 1]) == Some(st.project.value.id)
  {
    var id := st.project.value.id;
    var m := CurrentProjectModule(st).value;
    assert m[9..|m| - 1] == Text.IntToString(id);
    Text.ParseSignedIntToString(id, Text.LONG_MIN, Text.LONG_MAX);
  }

  /** `currentViewerModule`: "viewers/<viewer>/" under the project's module,
      or at the top when no project is open; a missing viewer renders as
      "null", as a template literal renders it. */
  function CurrentViewerModule(st: ProjectState): (r: string)
    ensures Text.EndsWith(r, "/")
    ensures st.project.Some? ==> Text.StartsWith(r, CurrentProjectModule(st).value)
    ensures st.project.None? ==> Text.StartsWith(r, "viewers/")
    ensures st.currentViewer.None? ==> Text.EndsWith(r, "viewers/null/")
  {
    var prefix := if st.project.Some? then CurrentProjectModule(st).value else "";
    var viewer := if st.currentViewer.Some? then st.currentViewer.value else "null";
    var r := prefix + ("viewers/" + viewer + "/");
    ViewerPathAffixes(prefix, viewer);
    r
  }

  lemma ViewerPathAffixes(prefix: string, viewer: string)
    ensures var r := prefix + ("viewers/" + viewer + "/");
      Text.StartsWith(r, prefix) && Text.EndsWith(r, "/")
      && (prefix == "" ==> Text.StartsWith(r, "viewers/"))
      && (viewer == "null" ==> Text.EndsWith(r, "viewers/null/"))
  {
    var head := "viewers/" + viewer;
    var tail := head + "/";
    var r := prefix + tail;
    Text.ConcatAffixes(prefix, tail);
    Text.ConcatAffixes(head, "/");
    Text.EndsWithTrans(r, tail, "/");
    if prefix == "" {
      assert r == tail;
      Text.ConcatAffixes("viewers/", viewer);
      Text.StartsWithTrans(tail, head, "viewers/");
    }
    if viewer == "null" {
      assert tail == "viewers/null/";
    }
  }
}
