/**
 * The single administrator: one endpoint that registers the account on first use and logs in
 * afterwards, gated by a shared passphrase, and a profile read that hides the password hash.
 * Password hashing and checking are parameters (`hash`, `check`) about which the model assumes
 * only that a password checks against its own hash.
 */
module AdminController {
  import opened Wrappers
  import opened ObjectIds
  import opened Models
  import opened Store

  /**
   * `First(bson.M{"email": email})` over the user collection. With no sort the driver promises no
   * particular match; the model takes the first one stored.
   */
  function UserByEmail(users: seq<Doc<User>>, email: string): (u: Option<Doc<User>>)
    ensures u.Some? ==> u.value in users && u.value.model.email == email
    ensures u.Some? ==> exists i :: 0 <= i < |users| && users[i] == u.value && forall j :: 0 <= j < i ==> users[j].model.email != email
    ensures u.None? ==> forall i :: 0 <= i < |users| ==> users[i].model.email != email
  {
    if |users| == 0 then None
    else if users[0].model.email == email then Some(users[0])
    else UserByEmail(users[1..], email)
  }

  /** The lookup by email as the handler sees it: any store error reads as "no such user". */
  function Existing(db: Db, email: string): (u: Option<Doc<User>>)
    reads db
    ensures FindOne(Users) in db.down ==> u.None?
    ensures u.Some? ==> u.value in db.users && u.value.model.email == email
    ensures FindOne(Users) !in db.down && (exists i :: 0 <= i < |db.users| && db.users[i].model.email == email) ==> u.Some?
  {
    if FindOne(Users) in db.down then None else UserByEmail(db.users, email)
  }

  /** No stored user carries the admin passphrase. */
  predicate NoStoredPassphrase(users: seq<Doc<User>>) {
    forall i :: 0 <= i < |users| ==> users[i].model.adminPass == ""
  }

  /** What the create branch stores: the request with the passphrase cleared and the password hashed. */
  function Registered(req: User, hash: string -> string): (u: User)
    ensures u.adminPass == "" && u.password == hash(req.password)
    ensures u.(adminPass := req.adminPass, password := req.password) == req
  {
    req.(adminPass := "", password := hash(req.password))
  }

  method AdminRegisterAndLogin(db: Db, body: Option<User>, adminPass: string, secret: string,
                               hash: string -> string, check: (string, string) -> bool, newId: ObjectId)
    returns (r: Response<Doc<User>>, token: Option<Token>)
    requires db.Valid()
    requires forall p :: check(p, hash(p))
    modifies db
    ensures db.Valid()
    ensures db.projects == old(db.projects) && db.experiences == old(db.experiences)
    ensures db.certifications == old(db.certifications) && db.down == old(db.down)
    ensures NoStoredPassphrase(old(db.users)) ==> NoStoredPassphrase(db.users)
    ensures body.None? ==> r == Response(StatusBadRequest, "Invalid request body", None) && token.None? && unchanged(db)
    ensures body.Some? && body.value.adminPass != adminPass ==>
              r == Response(StatusUnauthorized, "Invalid admin password", None) && token.None? && unchanged(db)
    ensures body.Some? && body.value.adminPass == adminPass && (body.value.email == "" || body.value.password == "") ==>
              r == Response(StatusBadRequest, "email and password are required", None) && token.None? && unchanged(db)
    ensures body.Some? && body.value.adminPass == adminPass && body.value.email != "" && body.value.password != "" ==>
              var req := body.value;
              var found := old(Existing(db, req.email));
              && (found.Some? && !check(req.password, found.value.model.password) ==>
                    && r == Response(StatusUnauthorized, "Invalid email or password", None)
                    && token.None? && unchanged(db))
              && (found.Some? && check(req.password, found.value.model.password) ==>
                    && r == Response(StatusAccepted, "User already exists", found)
                    && token == Some(Jwt(Hex(found.value.id), found.value.model.email, secret))
                    && unchanged(db))
              && (found.None? && (Insert(Users) in db.down || HasId(old(db.users), newId)) ==>
                    && r == Response(StatusInternalServerError, "Failed to register admin", None)
                    && token.None? && unchanged(db))
              && (found.None? && Insert(Users) !in db.down && !HasId(old(db.users), newId) ==>
                    && db.users == old(db.users) + [Doc(newId, Registered(req, hash))]
                    && db.users[|db.users| - 1].model.adminPass == ""
                    && check(req.password, db.users[|db.users| - 1].model.password)
                    && r == Response(StatusCreated, "Admin registered successfully", Some(Doc(newId, Registered(req, hash))))
                    && token == Some(Jwt(Hex(newId), req.email, secret)))
  {
    token := None;
    if body.None? {
      return Response(StatusBadRequest, "Invalid request body", None), None;
    }
    var req := body.value;
    if req.adminPass != adminPass {
      return Response(StatusUnauthorized, "Invalid admin password", None), None;
    }
    req := req.(adminPass := "");
    if req.email == "" || req.password == "" {
      return Response(StatusBadRequest, "email and password are required", None), None;
    }

    var existing := Existing(db, req.email);
    if existing.Some? {
      if !check(req.password, existing.value.model.password) {
        return Response(StatusUnauthorized, "Invalid email or password", None), None;
      }
      token := Some(Jwt(Hex(existing.value.id), existing.value.model.email, secret));
      return Response(StatusAccepted, "User already exists", existing), token;
    }

    req := req.(password := hash(req.password));
    if Insert(Users) in db.down || HasId(db.users, newId) {
      return Response(StatusInternalServerError, "Failed to register admin", None), None;
    }
    db.users := db.users + [Doc(newId, req)];
    token := Some(Jwt(Hex(newId), req.email, secret));
    r := Response(StatusCreated, "Admin registered successfully", Some(Doc(newId, req)));
  }

  /** The profile of the authenticated user (`userId` from the verified token), without its password hash. */
  method AdminGet(db: Db, userId: string) returns (r: Response<Doc<User>>)
    ensures userId == "" ==> r == Response(StatusUnauthorized, "Unauthorized", None)
    ensures userId != "" && (!ValidHex(userId) || FindOne(Users) in db.down || !HasId(db.users, FromHex(userId).value)) ==>
              r == Response(StatusNotFound, "User not found", None)
    ensures ValidHex(userId) && FindOne(Users) !in db.down && HasId(db.users, FromHex(userId).value) ==>
              && r.status == StatusOK && r.message == "User profile fetched successfully" && r.data.Some?
              && r.data.value.id == FromHex(userId).value
              && r.data.value.model.password == ""
              && exists d :: d in db.users && d.id == r.data.value.id && r.data.value.model == d.model.(password := "")
  {
    if userId == "" {
      return Response(StatusUnauthorized, "Unauthorized", None);
    }
    // FindByID converts a string id with ObjectIDFromHex; a conversion error reads as not found.
    var parsed := FromHex(userId);
    if parsed.None? || FindOne(Users) in db.down {
      return Response(StatusNotFound, "User not found", None);
    }
    var user := Lookup(db.users, parsed.value);
    if user.None? {
      return Response(StatusNotFound, "User not found", None);
    }
    var u := user.value;
    r := Response(StatusOK, "User profile fetched successfully", Some(Doc(u.id, u.model.(password := ""))));
  }
}
