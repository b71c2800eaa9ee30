/** The project resource: list, get, add, update and remove, against the in-memory store. */
module ProjectController {
  import opened Wrappers
  import opened ObjectIds
  import opened Sequences
  import opened Models
  import opened Store

  /** The owner document with its project back-references replaced by `refs`. */
  function WithProjects(u: Doc<User>, refs: seq<ObjectId>): Doc<User> {
    Doc(u.id, u.model.(projects := refs))
  }

  /** Lists every project, most recently created first. */
  method GetProjects(db: Db) returns (r: Response<seq<Doc<Project>>>)
    ensures FindAll(Projects) in db.down ==>
              r == Response(StatusInternalServerError, "Failed to fetch projects", None)
    ensures FindAll(Projects) !in db.down && |db.projects| == 0 ==>
              r == Response(StatusOK, "No projects found", None)
    ensures FindAll(Projects) !in db.down && |db.projects| > 0 ==>
              r == Response(StatusOK, "Projects retrieved successfully", Some(Reverse(db.projects)))
  {
    if FindAll(Projects) in db.down {
      return Response(StatusInternalServerError, "Failed to fetch projects", None);
    }
    var found := db.projects;
    if |found| == 0 {
      return Response(StatusOK, "No projects found", None);
    }
    var a := new Doc<Project>[|found|](i requires 0 <= i < |found| => found[i]);
    assert a[..] == found;
    ReverseInPlace(a);
    r := Response(StatusOK, "Projects retrieved successfully", Some(a[..]));
  }

  /** Checks the id in a fixed order: present, then well-formed, then stored. */
  method GetProjectByID(db: Db, pid: string) returns (r: Response<Doc<Project>>)
    ensures pid == "" ==> r == Response(StatusBadRequest, "Project ID is required", None)
    ensures pid != "" && !ValidHex(pid) ==> r == Response(StatusBadRequest, "Invalid project ID", None)
    ensures ValidHex(pid) && (FindOne(Projects) in db.down || !HasId(db.projects, FromHex(pid).value)) ==>
              r == Response(StatusNotFound, "Project not found", None)
    ensures ValidHex(pid) && FindOne(Projects) !in db.down && HasId(db.projects, FromHex(pid).value) ==>
              && r.status == StatusOK && r.message == "Project retrieved successfully"
              && r.data.Some? && r.data.value in db.projects && r.data.value.id == FromHex(pid).value
  {
    if pid == "" {
      return Response(StatusBadRequest, "Project ID is required", None);
    }
    var parsed := FromHex(pid);
    if parsed.None? {
      return Response(StatusBadRequest, "Invalid project ID", None);
    }
    var p := if FindOne(Projects) in db.down then None else Lookup(db.projects, parsed.value);
    if p.None? {
      return Response(StatusNotFound, "Project not found", None);
    }
    r := Response(StatusOK, "Project retrieved successfully", p);
  }

  /**
   * Validates and stores a project under the identifier the store generates (`newId`), then appends
   * that identifier to the owner's back-references. The two writes are not atomic: when the owner
   * cannot be read or written, the project stays stored without a back-reference.
   */
  method AddProjects(db: Db, body: Option<Project>, newId: ObjectId) returns (r: Response<Doc<Project>>)
    requires db.Valid()
    modifies db
    ensures db.Valid()
    ensures db.experiences == old(db.experiences) && db.certifications == old(db.certifications)
    ensures db.down == old(db.down)
    ensures body.None? ==> r == Response(StatusBadRequest, "Invalid request body", None) && unchanged(db)
    ensures body.Some? && !ProjectComplete(body.value) ==>
              && r == Response(StatusBadRequest, "Name, small description and description are required", None)
              && unchanged(db)
    ensures body.Some? && ProjectComplete(body.value) && (Insert(Projects) in db.down || HasId(old(db.projects), newId)) ==>
              r == Response(StatusInternalServerError, "Failed to add project", None) && unchanged(db)
    ensures body.Some? && ProjectComplete(body.value) && Insert(Projects) !in db.down && !HasId(old(db.projects), newId) ==>
              && db.projects == old(db.projects) + [Doc(newId, body.value)]
              && (old(db.FirstUser()).None? ==>
                    r == Response(StatusNotFound, "User not found", None) && db.users == old(db.users))
              && (old(db.FirstUser()).Some? && Update(Users) in db.down ==>
                    && r == Response(StatusInternalServerError, "Failed to update user projects", None)
                    && db.users == old(db.users))
              && (old(db.FirstUser()).Some? && Update(Users) !in db.down ==>
                    && r == Response(StatusOK, "Project added successfully", Some(Doc(newId, body.value)))
                    && db.users == old(db.users)[0 := WithProjects(old(db.users[0]), old(db.users[0].model.projects) + [newId])])
  {
    if body.None? {
      return Response(StatusBadRequest, "Invalid request body", None);
    }
    var p := body.value;
    if p.projectName == "" || p.smallDescription == "" || p.description == "" {
      return Response(StatusBadRequest, "Name, small description and description are required", None);
    }
    if Insert(Projects) in db.down || HasId(db.projects, newId) {
      return Response(StatusInternalServerError, "Failed to add project", None);
    }
    db.projects := db.projects + [Doc(newId, p)];

    var user := db.FirstUser();
    if user.None? {
      return Response(StatusNotFound, "User not found", None);
    }
    var u := WithProjects(user.value, user.value.model.projects + [newId]);
    if Update(Users) in db.down {
      return Response(StatusInternalServerError, "Failed to update user projects", None);
    }
    db.users := db.users[0 := u];
    r := Response(StatusOK, "Project added successfully", Some(Doc(newId, p)));
  }

  /**
   * Overwrites the seven project fields of the document `pid` with those of the body and answers
   * with the body itself. An identifier that matches no document changes nothing and still succeeds.
   */
  method UpdateProjects(db: Db, pid: string, body: Option<Project>) returns (r: Response<Project>)
    requires db.Valid()
    modifies db
    ensures db.Valid()
    ensures db.users == old(db.users) && db.experiences == old(db.experiences)
    ensures db.certifications == old(db.certifications) && db.down == old(db.down)
    ensures pid == "" ==> r == Response(StatusBadRequest, "Project ID is required", None) && unchanged(db)
    ensures pid != "" && !ValidHex(pid) ==> r == Response(StatusBadRequest, "Invalid project ID", None) && unchanged(db)
    ensures ValidHex(pid) && body.None? ==> r == Response(StatusBadRequest, "Invalid request body", None) && unchanged(db)
    ensures ValidHex(pid) && body.Some? && !ProjectComplete(body.value) ==>
              && r == Response(StatusBadRequest, "Name, small description and description are required", None)
              && unchanged(db)
    ensures ValidHex(pid) && body.Some? && ProjectComplete(body.value) && Update(Projects) in db.down ==>
              r == Response(StatusInternalServerError, "Failed to update project", None) && unchanged(db)
    ensures ValidHex(pid) && body.Some? && ProjectComplete(body.value) && Update(Projects) !in db.down ==>
              && r == Response(StatusOK, "Project updated successfully", body)
              && db.projects == Replace(old(db.projects), FromHex(pid).value, body.value)
  {
    if pid == "" {
      return Response(StatusBadRequest, "Project ID is required", None);
    }
    var parsed := FromHex(pid);
    if parsed.None? {
      return Response(StatusBadRequest, "Invalid project ID", None);
    }
    if body.None? {
      return Response(StatusBadRequest, "Invalid request body", None);
    }
    var input := body.value;
    if input.projectName == "" || input.smallDescription == "" || input.description == "" {
      return Response(StatusBadRequest, "Name, small description and description are required", None);
    }
    // The `$set` lists all seven fields of a project, so the stored model becomes the input's.
    if Update(Projects) in db.down {
      return Response(StatusInternalServerError, "Failed to update project", None);
    }
    ReplaceKeepsIds(db.projects, parsed.value, input);
    db.projects := Replace(db.projects, parsed.value, input);
    r := Response(StatusOK, "Project updated successfully", Some(input));
  }

  /**
   * Reads the owner first, then validates the id, drops every back-reference to it, saves the owner
   * and deletes the project. Whether the id was referenced at all is not checked.
   */
  method RemoveProjects(db: Db, pid: string) returns (r: Response<()>)
    requires db.Valid()
    modifies db
    ensures db.Valid()
    ensures db.experiences == old(db.experiences) && db.certifications == old(db.certifications)
    ensures db.down == old(db.down)
    ensures old(db.FirstUser()).None? ==> r == Response(StatusNotFound, "User not found", None) && unchanged(db)
    ensures old(db.FirstUser()).Some? && pid == "" ==>
              r == Response(StatusBadRequest, "Project ID is required", None) && unchanged(db)
    ensures old(db.FirstUser()).Some? && pid != "" && !ValidHex(pid) ==>
              r == Response(StatusBadRequest, "Invalid project ID", None) && unchanged(db)
    ensures old(db.FirstUser()).Some? && ValidHex(pid) && Update(Users) in db.down ==>
              r == Response(StatusInternalServerError, "Failed to update user", None) && unchanged(db)
    ensures old(db.FirstUser()).Some? && ValidHex(pid) && Update(Users) !in db.down ==>
              && db.users == old(db.users)[0 := WithProjects(old(db.users[0]), RemoveAll(old(db.users[0].model.projects), FromHex(pid).value))]
              && (Delete(Projects) in db.down ==>
                    r == Response(StatusInternalServerError, "Failed to delete project", None) && db.projects == old(db.projects))
              && (Delete(Projects) !in db.down ==>
                    && r == Response(StatusOK, "Project removed successfully", None)
                    && db.projects == Without(old(db.projects), FromHex(pid).value))
  {
    var user := db.FirstUser();
    if user.None? {
      return Response(StatusNotFound, "User not found", None);
    }
    if pid == "" {
      return Response(StatusBadRequest, "Project ID is required", None);
    }
    var parsed := FromHex(pid);
    if parsed.None? {
      return Response(StatusBadRequest, "Invalid project ID", None);
    }
    var objId := parsed.value;

    var refs := user.value.model.projects;
    var updated: seq<ObjectId> := [];
    var i := 0;
    while i < |refs|
      invariant 0 <= i <= |refs|
      invariant updated == RemoveAll(refs[..i], objId)
    {
      if refs[i] != objId {
        updated := updated + [refs[i]];
      }
      assert refs[..i + 1][..i] == refs[..i];
      i := i + 1;
    }
    assert refs[..|refs|] == refs;

    if Update(Users) in db.down {
      return Response(StatusInternalServerError, "Failed to update user", None);
    }
    db.users := db.users[0 := WithProjects(user.value, updated)];

    if Delete(Projects) in db.down {
      return Response(StatusInternalServerError, "Failed to delete project", None);
    }
    WithoutUnique(db.projects, objId);
    db.projects := Without(db.projects, objId);
    r := Response(StatusOK, "Project removed successfully", None);
  }
}
