/** The certification resource: list, get, add, update and remove, against the in-memory store. */
module CertificationController {
  import opened Wrappers
  import opened ObjectIds
  import opened Sequences
  import opened Models
  import opened Store

  /** The owner document with its certification back-references replaced by `refs`. */
  function WithCertifications(u: Doc<User>, refs: seq<ObjectId>): Doc<User> {
    Doc(u.id, u.model.(certifications := refs))
  }

  /** Lists every certification, most recently created first (`reverseCerts`). */
  method GetCertifications(db: Db) returns (r: Response<seq<Doc<Certification>>>)
    ensures FindAll(Certifications) in db.down ==>
              r == Response(StatusInternalServerError, "Failed to fetch certifications", None)
    ensures FindAll(Certifications) !in db.down && |db.certifications| == 0 ==>
              r == Response(StatusOK, "No certifications found", None)
    ensures FindAll(Certifications) !in db.down && |db.certifications| > 0 ==>
              r == Response(StatusOK, "Certifications retrieved successfully", Some(Reverse(db.certifications)))
  {
    if FindAll(Certifications) in db.down {
      return Response(StatusInternalServerError, "Failed to fetch certifications", None);
    }
    var certs := db.certifications;
    if |certs| == 0 {
      return Response(StatusOK, "No certifications found", None);
    }
    var a := new Doc<Certification>[|certs|](i requires 0 <= i < |certs| => certs[i]);
    assert a[..] == certs;
    ReverseInPlace(a);
    r := Response(StatusOK, "Certifications retrieved successfully", Some(a[..]));
  }

  /** Checks the id in a fixed order: present, then well-formed, then stored. */
  method GetCertificationByID(db: Db, cid: string) returns (r: Response<Doc<Certification>>)
    ensures cid == "" ==> r == Response(StatusBadRequest, "Certification ID is required", None)
    ensures cid != "" && !ValidHex(cid) ==> r == Response(StatusBadRequest, "Invalid certification ID", None)
    ensures ValidHex(cid) && (FindOne(Certifications) in db.down || !HasId(db.certifications, FromHex(cid).value)) ==>
              r == Response(StatusNotFound, "Certification not found", None)
    ensures ValidHex(cid) && FindOne(Certifications) !in db.down && HasId(db.certifications, FromHex(cid).value) ==>
              && r.status == StatusOK && r.message == "Certification retrieved successfully"
              && r.data.Some? && r.data.value in db.certifications && r.data.value.id == FromHex(cid).value
  {
    if cid == "" {
      return Response(StatusBadRequest, "Certification ID is required", None);
    }
    var parsed := FromHex(cid);
    if parsed.None? {
      return Response(StatusBadRequest, "Invalid certification ID", None);
    }
    var cert := if FindOne(Certifications) in db.down then None else Lookup(db.certifications, parsed.value);
    if cert.None? {
      return Response(StatusNotFound, "Certification not found", None);
    }
    r := Response(StatusOK, "Certification retrieved successfully", cert);
  }

  /**
   * Validates and stores a certification under the store-generated identifier `newId`, then appends
   * that identifier to the owner's back-references; the two writes are not atomic.
   */
  method AddCertification(db: Db, body: Option<Certification>, newId: ObjectId) returns (r: Response<Doc<Certification>>)
    requires db.Valid()
    modifies db
    ensures db.Valid()
    ensures db.projects == old(db.projects) && db.experiences == old(db.experiences)
    ensures db.down == old(db.down)
    ensures body.None? ==> r == Response(StatusBadRequest, "Invalid request body", None) && unchanged(db)
    ensures body.Some? && !CertificationComplete(body.value) ==>
              && r == Response(StatusBadRequest, "Title, description, and issuer are required", None)
              && unchanged(db)
    ensures body.Some? && CertificationComplete(body.value) && (Insert(Certifications) in db.down || HasId(old(db.certifications), newId)) ==>
              r == Response(StatusInternalServerError, "Failed to add certification", None) && unchanged(db)
    ensures body.Some? && CertificationComplete(body.value) && Insert(Certifications) !in db.down && !HasId(old(db.certifications), newId) ==>
              && db.certifications == old(db.certifications) + [Doc(newId, body.value)]
              && (old(db.FirstUser()).None? ==>
                    r == Response(StatusNotFound, "User not found", None) && db.users == old(db.users))
              && (old(db.FirstUser()).Some? && Update(Users) in db.down ==>
                    && r == Response(StatusInternalServerError, "Failed to update user certifications", None)
                    && db.users == old(db.users))
              && (old(db.FirstUser()).Some? && Update(Users) !in db.down ==>
                    && r == Response(StatusOK, "Certification added successfully", Some(Doc(newId, body.value)))
                    && db.users == old(db.users)[0 := WithCertifications(old(db.users[0]), old(db.users[0].model.certifications) + [newId])])
  {
    if body.None? {
      return Response(StatusBadRequest, "Invalid request body", None);
    }
    var cert := body.value;
    if cert.title == "" || cert.description == "" || cert.issuer == "" {
      return Response(StatusBadRequest, "Title, description, and issuer are required", None);
    }
    if Insert(Certifications) in db.down || HasId(db.certifications, newId) {
      return Response(StatusInternalServerError, "Failed to add certification", None);
    }
    db.certifications := db.certifications + [Doc(newId, cert)];

    var user := db.FirstUser();
    if user.None? {
      return Response(StatusNotFound, "User not found", None);
    }
    var u := WithCertifications(user.value, user.value.model.certifications + [newId]);
    if Update(Users) in db.down {
      return Response(StatusInternalServerError, "Failed to update user certifications", None);
    }
    db.users := db.users[0 := u];
    r := Response(StatusOK, "Certification added successfully", Some(Doc(newId, cert)));
  }

  /**
   * Overwrites the nine certification fields of the document `cid` with those of the body and
   * answers with the body itself. An identifier that matches no document changes nothing.
   */
  method UpdateCertification(db: Db, cid: string, body: Option<Certification>) returns (r: Response<Certification>)
    requires db.Valid()
    modifies db
    ensures db.Valid()
    ensures db.users == old(db.users) && db.projects == old(db.projects)
    ensures db.experiences == old(db.experiences) && db.down == old(db.down)
    ensures cid == "" ==> r == Response(StatusBadRequest, "Certification ID is required", None) && unchanged(db)
    ensures cid != "" && !ValidHex(cid) ==> r == Response(StatusBadRequest, "Invalid certification ID", None) && unchanged(db)
    ensures ValidHex(cid) && body.None? ==> r == Response(StatusBadRequest, "Invalid request body", None) && unchanged(db)
    ensures ValidHex(cid) && body.Some? && !CertificationComplete(body.value) ==>
              && r == Response(StatusBadRequest, "Title, description, and issuer are required", None)
              && unchanged(db)
    ensures ValidHex(cid) && body.Some? && CertificationComplete(body.value) && Update(Certifications) in db.down ==>
              r == Response(StatusInternalServerError, "Failed to update certification", None) && unchanged(db)
    ensures ValidHex(cid) && body.Some? && CertificationComplete(body.value) && Update(Certifications) !in db.down ==>
              && r == Response(StatusOK, "Certification updated successfully", body)
              && db.certifications == Replace(old(db.certifications), FromHex(cid).value, body.value)
  {
    if cid == "" {
      return Response(StatusBadRequest, "Certification ID is required", None);
    }
    var parsed := FromHex(cid);
    if parsed.None? {
      return Response(StatusBadRequest, "Invalid certification ID", None);
    }
    if body.None? {
      return Response(StatusBadRequest, "Invalid request body", None);
    }
    var input := body.value;
    if input.title == "" || input.description == "" || input.issuer == "" {
      return Response(StatusBadRequest, "Title, description, and issuer are required", None);
    }
    // The `$set` lists all nine fields of a certification, so the stored model becomes the input's.
    if Update(Certifications) in db.down {
      return Response(StatusInternalServerError, "Failed to update certification", None);
    }
    ReplaceKeepsIds(db.certifications, parsed.value, input);
    db.certifications := Replace(db.certifications, parsed.value, input);
    r := Response(StatusOK, "Certification updated successfully", Some(input));
  }

  /**
   * Reads the owner first, then validates the id, drops every back-reference to it, saves the owner
   * and deletes the certification. Whether the id was referenced at all is not checked.
   */
  method RemoveCertification(db: Db, cid: string) returns (r: Response<()>)
    requires db.Valid()
    modifies db
    ensures db.Valid()
    ensures db.projects == old(db.projects) && db.experiences == old(db.experiences)
    ensures db.down == old(db.down)
    ensures old(db.FirstUser()).None? ==> r == Response(StatusNotFound, "User not found", None) && unchanged(db)
    ensures old(db.FirstUser()).Some? && cid == "" ==>
              r == Response(StatusBadRequest, "Certification ID is required", None) && unchanged(db)
    ensures old(db.FirstUser()).Some? && cid != "" && !ValidHex(cid) ==>
              r == Response(StatusBadRequest, "Invalid certification ID", None) && unchanged(db)
    ensures old(db.FirstUser()).Some? && ValidHex(cid) && Update(Users) in db.down ==>
              r == Response(StatusInternalServerError, "Failed to update user certifications", None) && unchanged(db)
    ensures old(db.FirstUser()).Some? && ValidHex(cid) && Update(Users) !in db.down ==>
              && db.users == old(db.users)[0 := WithCertifications(old(db.users[0]), RemoveAll(old(db.users[0].model.certifications), FromHex(cid).value))]
              && (Delete(Certifications) in db.down ==>
                    && r == Response(StatusInternalServerError, "Failed to delete certification", None)
                    && db.certifications == old(db.certifications))
              && (Delete(Certifications) !in db.down ==>
                    && r == Response(StatusOK, "Certification removed successfully", None)
                    && db.certifications == Without(old(db.certifications), FromHex(cid).value))
  {
    var user := db.FirstUser();
    if user.None? {
      return Response(StatusNotFound, "User not found", None);
    }
    if cid == "" {
      return Response(StatusBadRequest, "Certification ID is required", None);
    }
    var parsed := FromHex(cid);
    if parsed.None? {
      return Response(StatusBadRequest, "Invalid certification ID", None);
    }
    var certObjId := parsed.value;

    var refs := user.value.model.certifications;
    var newCerts: seq<ObjectId> := [];
    var i := 0;
    while i < |refs|
      invariant 0 <= i <= |refs|
      invariant newCerts == RemoveAll(refs[..i], certObjId)
    {
      if refs[i] != certObjId {
        newCerts := newCerts + [refs[i]];
      }
      assert refs[..i + 1][..i] == refs[..i];
      i := i + 1;
    }
    assert refs[..|refs|] == refs;

    if Update(Users) in db.down {
      return Response(StatusInternalServerError, "Failed to update user certifications", None);
    }
    db.users := db.users[0 := WithCertifications(user.value, newCerts)];

    if Delete(Certifications) in db.down {
      return Response(StatusInternalServerError, "Failed to delete certification", None);
    }
    WithoutUnique(db.certifications, certObjId);
    db.certifications := Without(db.certifications, certObjId);
    r := Response(StatusOK, "Certification removed successfully", None);
  }
}
