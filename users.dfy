/**
 * The user registry handlers: register a user under an email no other user
 * has, look a user up, delete one, and update the non-empty fields of one.
 */
module Users {
  import opened Wrappers
  import opened ObjectIds
  import opened Store

  /** A registration body as decoded: its email and its other fields, by document field name. */
  datatype NewUser = NewUser(email: string, profile: Doc)

  /** An update as sent to the store: the user it targets and the fields it sets. */
  datatype Update = Update(target: ObjectId, fields: Doc)

  /** The document stored for a registration made at time `now`. */
  function UserDocument(user: NewUser, now: int): (d: Doc)
    ensures EMAIL_KEY in d && d[EMAIL_KEY] == Str(user.email)
    ensures CREATED_AT_KEY in d && d[CREATED_AT_KEY] == Stamp(now)
    ensures d.Keys == user.profile.Keys + {EMAIL_KEY, CREATED_AT_KEY}
    ensures forall k :: k in user.profile && k != EMAIL_KEY && k != CREATED_AT_KEY ==> d[k] == user.profile[k]
  {
    user.profile[EMAIL_KEY := Str(user.email)][CREATED_AT_KEY := Stamp(now)]
  }

  /**
   * Register a user. The body must parse, its email must pass
   * `isValidEmail`, and no user may already have that email; the new document
   * is then stored under `assignedId`, the id the store gives it (an id
   * already in use makes the insert fail).
   */
  method Create(db: Database, body: Option<NewUser>, isValidEmail: string -> bool, now: int, assignedId: ObjectId)
    returns (r: Reply<ObjectId>)
    modifies db`users
    ensures match body
      case None => r == Fail(UNPROCESSABLE_ENTITY, MalformedJson)
      case Some(user) =>
        if !isValidEmail(user.email) then r == Fail(BAD_REQUEST, Message("email address is not valid"))
        else if EmailTaken(old(db.users), user.email) then r == Fail(BAD_REQUEST, Message(OPERATION_FAILED))
        else if assignedId in old(db.users) then r == Fail(INTERNAL_SERVER_ERROR, DuplicateKey)
        else r == Ok(assignedId)
    ensures db.users == if r.Ok? then old(db.users)[assignedId := UserDocument(body.value, now)] else old(db.users)
    ensures old(EmailsUnique(db.users)) ==> EmailsUnique(db.users)
  {
    if body.None? {
      return Fail(UNPROCESSABLE_ENTITY, MalformedJson);
    }
    var user := body.value;
    if !isValidEmail(user.email) {
      return Fail(BAD_REQUEST, Message("email address is not valid"));
    }

    if EmailTaken(db.users, user.email) {
      return Fail(BAD_REQUEST, Message(OPERATION_FAILED));
    }

    var detail := UserDocument(user, now);

    if assignedId in db.users {
      return Fail(INTERNAL_SERVER_ERROR, DuplicateKey);
    }
    if EmailsUnique(db.users) {
      InsertKeepsEmailsUnique(db.users, assignedId, detail);
    }
    db.users := db.users[assignedId := detail];
    r := Ok(assignedId);
  }

  /**
   * Delete the user with the given id. Deleting nothing (an unknown or
   * malformed id) is a server error; otherwise that user is gone and every
   * other user is as before.
   */
  method DeleteUser(db: Database, userIdText: string) returns (r: Reply<()>)
    modifies db`users
    ensures r.Ok? <==> ParseId(userIdText).Some? && ParseId(userIdText).value in old(db.users)
    ensures !r.Ok? ==> r == Fail(INTERNAL_SERVER_ERROR, Message(OPERATION_FAILED)) && db.users == old(db.users)
    ensures r.Ok? ==> db.users == old(db.users) - {ParseId(userIdText).value}
    ensures old(EmailsUnique(db.users)) ==> EmailsUnique(db.users)
  {
    var id := ParseId(userIdText);
    var deletedCount := if id.Some? && id.value in db.users then 1 else 0;
    if deletedCount == 0 {
      return Fail(INTERNAL_SERVER_ERROR, Message(OPERATION_FAILED));
    }
    if EmailsUnique(db.users) {
      RemoveKeepsEmailsUnique(db.users, id.value);
    }
    db.users := db.users - {id.value};
    r := Ok(());
  }

  /** Look a user up by id: a malformed id is refused before the store is read. */
  function FindUserByID(db: Database, userIdText: string): (r: Reply<Doc>)
    reads db
    ensures ParseId(userIdText).None? ==> r == Fail(BAD_REQUEST, InvalidHex)
    ensures ParseId(userIdText).Some? ==>
      var id := ParseId(userIdText).value;
      if id in db.users then r == Ok(db.users[id]) else r == Fail(INTERNAL_SERVER_ERROR, NoDocuments)
  {
    match ParseId(userIdText)
    case None => Fail(BAD_REQUEST, InvalidHex)
    case Some(objId) =>
      var (res, err) := FindById(db.users, objId);
      if err.Some? then Fail(INTERNAL_SERVER_ERROR, err.value) else Ok(res.value)
  }

  /** The entries of an update body that are to be set: those whose value is not the empty text. */
  ghost function NonEmptyFields(userMap: Doc): Doc {
    map key | key in userMap && userMap[key] != Str("") :: userMap[key]
  }

  /** An update body yields no update exactly when every value in it is the empty text. */
  lemma NoFieldsToSet(userMap: Doc)
    ensures NonEmptyFields(userMap) == map[] <==> forall key :: key in userMap ==> userMap[key] == Str("")
  {
    if NonEmptyFields(userMap) == map[] {
      forall key | key in userMap ensures userMap[key] == Str("") {
        assert key !in NonEmptyFields(userMap);
      }
    }
  }

  /** Build the update from an update body, keeping each entry whose value is not "". */
  method CollectUpdateFields(userMap: Doc) returns (updateFields: Doc)
    ensures forall key :: key in updateFields <==> key in userMap && userMap[key] != Str("")
    ensures forall key :: key in updateFields ==> updateFields[key] == userMap[key]
    ensures updateFields == NonEmptyFields(userMap)
  {
    updateFields := map[];
    var pending := userMap.Keys;
    while pending != {}
      invariant pending <= userMap.Keys
      invariant forall key :: key in updateFields <==> key in userMap && key !in pending && userMap[key] != Str("")
      invariant forall key :: key in updateFields ==> updateFields[key] == userMap[key]
      decreases pending
    {
      var key :| key in pending;
      var value := userMap[key];
      if value != Str("") {
        updateFields := updateFields[key := value];
      }
      pending := pending - {key};
    }
  }

  /**
   * Update a user. A malformed id is refused before the store is read, an
   * unknown user next, an unparsable body next, and an update with no
   * non-empty field last; otherwise exactly the non-empty fields are set on
   * that user.
   */
  method UpdateUser(db: Database, userIdText: string, body: Option<Doc>) returns (r: Reply<Update>)
    modifies db`users
    ensures match ParseId(userIdText)
      case None => r == Fail(BAD_REQUEST, Message("invalid user ID"))
      case Some(id) =>
        if id !in old(db.users) then r == Fail(NOT_FOUND, Message("User does not exist"))
        else match body
          case None => r == Fail(UNPROCESSABLE_ENTITY, Message("bad update data"))
          case Some(userMap) =>
            if NonEmptyFields(userMap) == map[] then r == Fail(BAD_REQUEST, Message("empty/invalid user input data"))
            else r == Ok(Update(id, NonEmptyFields(userMap)))
    ensures db.users == if r.Ok? then old(db.users)[r.data.target := old(db.users)[r.data.target] + r.data.fields]
                        else old(db.users)
    ensures old(EmailsUnique(db.users)) && (r.Ok? ==> EMAIL_KEY !in r.data.fields) ==> EmailsUnique(db.users)
  {
    var objId := ParseId(userIdText);
    if objId.None? {
      return Fail(BAD_REQUEST, Message("invalid user ID"));
    }

    var (userExist, err) := FindById(db.users, objId.value);
    if err.Some? {
      return Fail(NOT_FOUND, Message("User does not exist"));
    }
    if userExist.Some? {
      if body.None? {
        return Fail(UNPROCESSABLE_ENTITY, Message("bad update data"));
      }
      var userMap := body.value;

      var updateFields := CollectUpdateFields(userMap);
      if |updateFields| == 0 {
        return Fail(BAD_REQUEST, Message("empty/invalid user input data"));
      }
      if EmailsUnique(db.users) && EMAIL_KEY !in updateFields {
        SetKeepsEmailsUnique(db.users, objId.value, updateFields);
      }
      db.users := db.users[objId.value := db.users[objId.value] + updateFields];
      r := Ok(Update(objId.value, updateFields));
    } else {
      r := Silent;
    }
  }
}
