/**
 * The skill sub-resource. Adding appends to the owner's own skill list; reading ignores that list
 * and answers the union of the skill tags of the owner's projects.
 */
module SkillController {
  import opened Wrappers
  import opened ObjectIds
  import opened Sequences
  import opened Models
  import opened Store

  /** `Find` with `{_id: {$in: refs}}`: the stored projects the owner references, in store order. */
  function Referenced(docs: seq<Doc<Project>>, refs: seq<ObjectId>): (r: seq<Doc<Project>>)
    ensures forall i :: 0 <= i < |r| ==> r[i] in docs && r[i].id in refs
    ensures forall i :: 0 <= i < |docs| && docs[i].id in refs ==> docs[i] in r
  {
    if |docs| == 0 then []
    else Referenced(docs[..|docs| - 1], refs) + (if docs[|docs| - 1].id in refs then [docs[|docs| - 1]] else [])
  }

  /** The tags the `skillSet` loop collects from `ps`. */
  function SkillUnion(ps: seq<Doc<Project>>): set<string> {
    if |ps| == 0 then {}
    else SkillUnion(ps[..|ps| - 1]) + Elements(ps[|ps| - 1].model.skills)
  }

  /** A tag is in the union exactly when some fetched project carries it. */
  lemma {:induction false} SkillUnionMembers(ps: seq<Doc<Project>>, s: string)
    ensures s in SkillUnion(ps) <==> exists i :: 0 <= i < |ps| && s in ps[i].model.skills
  {
    if |ps| > 0 {
      var init := ps[..|ps| - 1];
      SkillUnionMembers(init, s);
      if s in SkillUnion(init) {
        var i :| 0 <= i < |init| && s in init[i].model.skills;
        assert ps[i] == init[i];
      }
      if exists i :: 0 <= i < |ps| && s in ps[i].model.skills {
        var i :| 0 <= i < |ps| && s in ps[i].model.skills;
        if i < |ps| - 1 {
          assert init[i] == ps[i];
        }
      }
    }
  }

  /** Appends the payload to the owner's skills, duplicates kept, and answers the resulting list. */
  method AddSkills(db: Db, body: Option<seq<string>>) returns (r: Response<seq<string>>)
    requires db.Valid()
    modifies db
    ensures db.Valid()
    ensures db.projects == old(db.projects) && db.experiences == old(db.experiences)
    ensures db.certifications == old(db.certifications) && db.down == old(db.down)
    ensures body.None? ==> r == Response(StatusBadRequest, "Invalid request body", None) && unchanged(db)
    ensures body.Some? && |body.value| == 0 ==>
              r == Response(StatusBadRequest, "Skills cannot be empty", None) && unchanged(db)
    ensures body.Some? && |body.value| > 0 && old(db.FirstUser()).None? ==>
              r == Response(StatusNotFound, "User not found", None) && unchanged(db)
    ensures body.Some? && |body.value| > 0 && old(db.FirstUser()).Some? && Update(Users) in db.down ==>
              r == Response(StatusInternalServerError, "Failed to update skills", None) && unchanged(db)
    ensures body.Some? && |body.value| > 0 && old(db.FirstUser()).Some? && Update(Users) !in db.down ==>
              && r == Response(StatusOK, "Skills added successfully", Some(old(db.users[0].model.skills) + body.value))
              && db.users == old(db.users)[0 := Doc(old(db.users[0].id), old(db.users[0].model).(skills := old(db.users[0].model.skills) + body.value))]
  {
    if body.None? {
      return Response(StatusBadRequest, "Invalid request body", None);
    }
    var payload := body.value;
    if |payload| == 0 {
      return Response(StatusBadRequest, "Skills cannot be empty", None);
    }
    var user := db.FirstUser();
    if user.None? {
      return Response(StatusNotFound, "User not found", None);
    }
    var u := user.value.model;
    u := u.(skills := u.skills + payload);
    if Update(Users) in db.down {
      return Response(StatusInternalServerError, "Failed to update skills", None);
    }
    db.users := db.users[0 := Doc(user.value.id, u)];
    r := Response(StatusOK, "Skills added successfully", Some(u.skills));
  }

  /**
   * Answers each tag carried by a project the owner references exactly once, in no particular
   * order. The owner's own skill list is never read.
   */
  method GetSkills(db: Db) returns (r: Response<seq<string>>)
    ensures db.FirstUser().None? ==> r == Response(StatusNotFound, "User not found", None)
    ensures db.FirstUser().Some? && |db.users[0].model.projects| == 0 ==>
              r == Response(StatusOK, "No projects found", None)
    ensures db.FirstUser().Some? && |db.users[0].model.projects| > 0 && FindAll(Projects) in db.down ==>
              r == Response(StatusInternalServerError, "Failed to fetch projects", None)
    ensures db.FirstUser().Some? && |db.users[0].model.projects| > 0 && FindAll(Projects) !in db.down && Decode(Projects) in db.down ==>
              r == Response(StatusInternalServerError, "Failed to decode projects", None)
    ensures db.FirstUser().Some? && |db.users[0].model.projects| > 0 && FindAll(Projects) !in db.down && Decode(Projects) !in db.down ==>
              var tags := SkillUnion(Referenced(db.projects, db.users[0].model.projects));
              && (tags == {} ==> r == Response(StatusOK, "No skills found", None))
              && (tags != {} ==>
                    && r.status == StatusOK && r.message == "Skills retrieved successfully" && r.data.Some?
                    && NoDuplicates(r.data.value)
                    && forall s :: s in r.data.value <==> s in tags)
  {
    var user := db.FirstUser();
    if user.None? {
      return Response(StatusNotFound, "User not found", None);
    }
    var refs := user.value.model.projects;
    if |refs| == 0 {
      return Response(StatusOK, "No projects found", None);
    }
    if FindAll(Projects) in db.down {
      return Response(StatusInternalServerError, "Failed to fetch projects", None);
    }
    if Decode(Projects) in db.down {
      return Response(StatusInternalServerError, "Failed to decode projects", None);
    }
    var projects := Referenced(db.projects, refs);

    var skillSet: set<string> := {};
    var i := 0;
    while i < |projects|
      invariant 0 <= i <= |projects|
      invariant skillSet == SkillUnion(projects[..i])
    {
      var tags := projects[i].model.skills;
      var j := 0;
      while j < |tags|
        invariant 0 <= j <= |tags|
        invariant skillSet == SkillUnion(projects[..i]) + Elements(tags[..j])
      {
        assert tags[..j + 1] == tags[..j] + [tags[j]];
        skillSet := skillSet + {tags[j]};
        j := j + 1;
      }
      assert tags[..|tags|] == tags;
      assert projects[..i + 1][..i] == projects[..i];
      i := i + 1;
    }
    assert projects[..|projects|] == projects;

    if skillSet == {} {
      return Response(StatusOK, "No skills found", None);
    }
    var skills: seq<string> := [];
    var rest := skillSet;
    while rest != {}
      invariant rest <= skillSet
      invariant NoDuplicates(skills)
      invariant forall s :: s in skills <==> s in skillSet && s !in rest
      decreases rest
    {
      var s :| s in rest;
      skills := skills + [s];
      rest := rest - {s};
    }
    r := Response(StatusOK, "Skills retrieved successfully", Some(skills));
  }
}
