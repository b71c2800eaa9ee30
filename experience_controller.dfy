/**
 * The experience resource. It differs from projects and certifications in two places: an update
 * never touches `createdBy`, and removal matches back-references by their hex form and answers
 * 404 when none matches.
 */
module ExperienceController {
  import opened Wrappers
  import opened ObjectIds
  import opened Sequences
  import opened Models
  import opened Store

  /** The owner document with its experience back-references replaced by `refs`. */
  function WithExperiences(u: Doc<User>, refs: seq<ObjectId>): Doc<User> {
    Doc(u.id, u.model.(experiences := refs))
  }

  /** The `$set` of UpdateExperiences: ten fields copied from the input, `createdBy` left as stored. */
  function SetFields(stored: Experience, input: Experience): (e: Experience)
    ensures e.createdBy == stored.createdBy
    ensures e == input.(createdBy := stored.createdBy)
  {
    stored.(companyName := input.companyName, position := input.position, startDate := input.startDate,
            endDate := input.endDate, description := input.description, technologies := input.technologies,
            companyLogo := input.companyLogo, certificateUrl := input.certificateUrl, images := input.images,
            projects := input.projects)
  }

  /** UpdateByID with that `$set` applied to the document `id`, every other document untouched. */
  function UpdateById(docs: seq<Doc<Experience>>, id: ObjectId, input: Experience): (r: seq<Doc<Experience>>)
    ensures |r| == |docs|
    ensures forall i :: 0 <= i < |docs| ==> r[i].id == docs[i].id
    ensures forall i :: 0 <= i < |docs| && docs[i].id != id ==> r[i] == docs[i]
    ensures forall i :: 0 <= i < |docs| && docs[i].id == id ==> r[i].model == input.(createdBy := docs[i].model.createdBy)
  {
    seq(|docs|, i requires 0 <= i < |docs| => if docs[i].id == id then Doc(id, SetFields(docs[i].model, input)) else docs[i])
  }

  /** Some back-reference prints as `eid`. */
  predicate MentionsHex(refs: seq<ObjectId>, eid: string) {
    exists k :: 0 <= k < |refs| && Hex(refs[k]) == eid
  }

  /** The removal loop's `updated`: the back-references whose hex form differs from `eid`. */
  function KeepHex(refs: seq<ObjectId>, eid: string): (r: seq<ObjectId>)
    ensures forall i :: 0 <= i < |r| ==> r[i] in refs && Hex(r[i]) != eid
  {
    if |refs| == 0 then []
    else KeepHex(refs[..|refs| - 1], eid) + (if Hex(refs[|refs| - 1]) == eid then [] else [refs[|refs| - 1]])
  }

  /** Comparing hex strings removes exactly the occurrences of the identifier itself. */
  lemma {:induction false} KeepHexIsRemoveAll(refs: seq<ObjectId>, x: ObjectId)
    ensures KeepHex(refs, Hex(x)) == RemoveAll(refs, x)
  {
    if |refs| > 0 {
      HexInjective(refs[|refs| - 1], x);
      KeepHexIsRemoveAll(refs[..|refs| - 1], x);
    }
  }

  /** Lists every experience, most recently created first (`reverseExperiences`). */
  method GetExperiences(db: Db) returns (r: Response<seq<Doc<Experience>>>)
    ensures FindAll(Experiences) in db.down ==>
              r == Response(StatusInternalServerError, "Failed to fetch experiences", None)
    ensures FindAll(Experiences) !in db.down && |db.experiences| == 0 ==>
              r == Response(StatusOK, "No experiences found", None)
    ensures FindAll(Experiences) !in db.down && |db.experiences| > 0 ==>
              r == Response(StatusOK, "Experiences retrieved successfully", Some(Reverse(db.experiences)))
  {
    if FindAll(Experiences) in db.down {
      return Response(StatusInternalServerError, "Failed to fetch experiences", None);
    }
    var exps := db.experiences;
    if |exps| == 0 {
      return Response(StatusOK, "No experiences found", None);
    }
    var a := new Doc<Experience>[|exps|](i requires 0 <= i < |exps| => exps[i]);
    assert a[..] == exps;
    ReverseInPlace(a);
    r := Response(StatusOK, "Experiences retrieved successfully", Some(a[..]));
  }

  /** Checks the id in a fixed order: present, then well-formed, then stored. */
  method GetExperienceByID(db: Db, eid: string) returns (r: Response<Doc<Experience>>)
    ensures eid == "" ==> r == Response(StatusBadRequest, "Experience ID is required", None)
    ensures eid != "" && !ValidHex(eid) ==> r == Response(StatusBadRequest, "Invalid experience ID", None)
    ensures ValidHex(eid) && (FindOne(Experiences) in db.down || !HasId(db.experiences, FromHex(eid).value)) ==>
              r == Response(StatusNotFound, "Experience not found", None)
    ensures ValidHex(eid) && FindOne(Experiences) !in db.down && HasId(db.experiences, FromHex(eid).value) ==>
              && r.status == StatusOK && r.message == "Experience retrieved successfully"
              && r.data.Some? && r.data.value in db.experiences && r.data.value.id == FromHex(eid).value
  {
    if eid == "" {
      return Response(StatusBadRequest, "Experience ID is required", None);
    }
    var parsed := FromHex(eid);
    if parsed.None? {
      return Response(StatusBadRequest, "Invalid experience ID", None);
    }
    var e := if FindOne(Experiences) in db.down then None else Lookup(db.experiences, parsed.value);
    if e.None? {
      return Response(StatusNotFound, "Experience not found", None);
    }
    r := Response(StatusOK, "Experience retrieved successfully", e);
  }

  /**
   * Validates and stores an experience under the store-generated identifier `newId`, then appends
   * that identifier to the owner's back-references; the two writes are not atomic.
   */
  method AddExperiences(db: Db, body: Option<Experience>, newId: ObjectId) returns (r: Response<Doc<Experience>>)
    requires db.Valid()
    modifies db
    ensures db.Valid()
    ensures db.projects == old(db.projects) && db.certifications == old(db.certifications)
    ensures db.down == old(db.down)
    ensures body.None? ==> r == Response(StatusBadRequest, "Invalid request body", None) && unchanged(db)
    ensures body.Some? && !ExperienceComplete(body.value) ==>
              && r == Response(StatusBadRequest, "Company name, position and start date are required", None)
              && unchanged(db)
    ensures body.Some? && ExperienceComplete(body.value) && (Insert(Experiences) in db.down || HasId(old(db.experiences), newId)) ==>
              r == Response(StatusInternalServerError, "Failed to add experience", None) && unchanged(db)
    ensures body.Some? && ExperienceComplete(body.value) && Insert(Experiences) !in db.down && !HasId(old(db.experiences), newId) ==>
              && db.experiences == old(db.experiences) + [Doc(newId, body.value)]
              && (old(db.FirstUser()).None? ==>
                    r == Response(StatusNotFound, "User not found", None) && db.users == old(db.users))
              && (old(db.FirstUser()).Some? && Update(Users) in db.down ==>
                    && r == Response(StatusInternalServerError, "Failed to update user experiences", None)
                    && db.users == old(db.users))
              && (old(db.FirstUser()).Some? && Update(Users) !in db.down ==>
                    && r == Response(StatusOK, "Experience added successfully", Some(Doc(newId, body.value)))
                    && db.users == old(db.users)[0 := WithExperiences(old(db.users[0]), old(db.users[0].model.experiences) + [newId])])
  {
    if body.None? {
      return Response(StatusBadRequest, "Invalid request body", None);
    }
    var e := body.value;
    if e.companyName == "" || e.position == "" || e.startDate == "" {
      return Response(StatusBadRequest, "Company name, position and start date are required", None);
    }
    if Insert(Experiences) in db.down || HasId(db.experiences, newId) {
      return Response(StatusInternalServerError, "Failed to add experience", None);
    }
    db.experiences := db.experiences + [Doc(newId, e)];

    var user := db.FirstUser();
    if user.None? {
      return Response(StatusNotFound, "User not found", None);
    }
    var u := WithExperiences(user.value, user.value.model.experiences + [newId]);
    if Update(Users) in db.down {
      return Response(StatusInternalServerError, "Failed to update user experiences", None);
    }
    db.users := db.users[0 := u];
    r := Response(StatusOK, "Experience added successfully", Some(Doc(newId, e)));
  }

  /**
   * Writes the ten listed fields of the body into the document `eid`, keeps its `createdBy`, and
   * answers with the body itself. An identifier that matches no document changes nothing.
   */
  method UpdateExperiences(db: Db, eid: string, body: Option<Experience>) returns (r: Response<Experience>)
    requires db.Valid()
    modifies db
    ensures db.Valid()
    ensures db.users == old(db.users) && db.projects == old(db.projects)
    ensures db.certifications == old(db.certifications) && db.down == old(db.down)
    ensures eid == "" ==> r == Response(StatusBadRequest, "Experience ID is required", None) && unchanged(db)
    ensures eid != "" && !ValidHex(eid) ==> r == Response(StatusBadRequest, "Invalid experience ID", None) && unchanged(db)
    ensures ValidHex(eid) && body.None? ==> r == Response(StatusBadRequest, "Invalid request body", None) && unchanged(db)
    ensures ValidHex(eid) && body.Some? && !ExperienceComplete(body.value) ==>
              && r == Response(StatusBadRequest, "Company name, position and start date are required", None)
              && unchanged(db)
    ensures ValidHex(eid) && body.Some? && ExperienceComplete(body.value) && Update(Experiences) in db.down ==>
              r == Response(StatusInternalServerError, "Failed to update experience", None) && unchanged(db)
    ensures ValidHex(eid) && body.Some? && ExperienceComplete(body.value) && Update(Experiences) !in db.down ==>
              && r == Response(StatusOK, "Experience updated successfully", body)
              && db.experiences == UpdateById(old(db.experiences), FromHex(eid).value, body.value)
  {
    if eid == "" {
      return Response(StatusBadRequest, "Experience ID is required", None);
    }
    var parsed := FromHex(eid);
    if parsed.None? {
      return Response(StatusBadRequest, "Invalid experience ID", None);
    }
    if body.None? {
      return Response(StatusBadRequest, "Invalid request body", None);
    }
    var input := body.value;
    if input.companyName == "" || input.position == "" || input.startDate == "" {
      return Response(StatusBadRequest, "Company name, position and start date are required", None);
    }
    if Update(Experiences) in db.down {
      return Response(StatusInternalServerError, "Failed to update experience", None);
    }
    db.experiences := UpdateById(db.experiences, parsed.value, input);
    r := Response(StatusOK, "Experience updated successfully", Some(input));
  }

  /** The loop that copies every reference whose hex differs from `eid` and notes whether one matched. */
  method DropByHex(refs: seq<ObjectId>, eid: string) returns (updated: seq<ObjectId>, found: bool)
    ensures updated == KeepHex(refs, eid)
    ensures found <==> MentionsHex(refs, eid)
  {
    updated := [];
    found := false;
    var i := 0;
    while i < |refs|
      invariant 0 <= i <= |refs|
      invariant updated == KeepHex(refs[..i], eid)
      invariant found <==> MentionsHex(refs[..i], eid)
    {
      assert refs[..i + 1][..i] == refs[..i];
      if Hex(refs[i]) == eid {
        found := true;
        assert refs[..i + 1][i] == refs[i];
      } else {
        updated := updated + [refs[i]];
      }
      i := i + 1;
    }
    assert refs[..|refs|] == refs;
  }

  /**
   * Reads the owner, then drops every back-reference whose hex form is `eid`; when none matched
   * it answers 404 and writes nothing. Otherwise it saves the owner and deletes the document.
   * Parsing `eid` after the owner is saved cannot fail, because `eid` is then the hex form of a
   * stored identifier.
   */
  method RemoveExperiences(db: Db, eid: string) returns (r: Response<()>)
    requires db.Valid()
    modifies db
    ensures db.Valid()
    ensures db.projects == old(db.projects) && db.certifications == old(db.certifications)
    ensures db.down == old(db.down)
    ensures old(db.FirstUser()).None? ==> r == Response(StatusNotFound, "User not found", None) && unchanged(db)
    ensures old(db.FirstUser()).Some? && eid == "" ==>
              r == Response(StatusBadRequest, "Experience ID is required", None) && unchanged(db)
    ensures old(db.FirstUser()).Some? && eid != "" && !MentionsHex(old(db.users[0].model.experiences), eid) ==>
              r == Response(StatusNotFound, "Experience not found", None) && unchanged(db)
    ensures old(db.FirstUser()).Some? && MentionsHex(old(db.users[0].model.experiences), eid) ==>
              && ValidHex(eid)
              && (Update(Users) in db.down ==>
                    r == Response(StatusInternalServerError, "Failed to remove experience", None) && unchanged(db))
              && (Update(Users) !in db.down ==>
                    && db.users == old(db.users)[0 := WithExperiences(old(db.users[0]), RemoveAll(old(db.users[0].model.experiences), FromHex(eid).value))]
                    && (Delete(Experiences) in db.down ==>
                          && r == Response(StatusInternalServerError, "Failed to delete experience", None)
                          && db.experiences == old(db.experiences))
                    && (Delete(Experiences) !in db.down ==>
                          && r == Response(StatusOK, "Experience removed successfully", None)
                          && db.experiences == Without(old(db.experiences), FromHex(eid).value)))
  {
    var user := db.FirstUser();
    if user.None? {
      return Response(StatusNotFound, "User not found", None);
    }
    if eid == "" {
      return Response(StatusBadRequest, "Experience ID is required", None);
    }

    var refs := user.value.model.experiences;
    var updated, found := DropByHex(refs, eid);

    if !found {
      return Response(StatusNotFound, "Experience not found", None);
    }
    var k :| 0 <= k < |refs| && Hex(refs[k]) == eid;
    HexRoundTrip(refs[k]);
    KeepHexIsRemoveAll(refs, refs[k]);

    if Update(Users) in db.down {
      return Response(StatusInternalServerError, "Failed to remove experience", None);
    }
    db.users := db.users[0 := WithExperiences(user.value, updated)];

    var parsed := FromHex(eid);
    if parsed.None? {
      // The "Invalid experience ID" answer here is dead code: FromHex(Hex(x)) == Some(x).
      assert false;
    }
    var expObjId := parsed.value;

    if Delete(Experiences) in db.down {
      return Response(StatusInternalServerError, "Failed to delete experience", None);
    }
    WithoutUnique(db.experiences, expObjId);
    db.experiences := Without(db.experiences, expObjId);
    r := Response(StatusOK, "Experience removed successfully", None);
  }
}
