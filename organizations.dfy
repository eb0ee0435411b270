/**
 * The membership handlers: list the members of an organization, and add a
 * user to an organization as a member. A membership request is checked step
 * by step, and the only write is the single insert at the end.
 */
module Organizations {
  import opened Wrappers
  import opened ObjectIds
  import opened Store

  /** The `user_id` field of a request body; a missing field reads as "". */
  function UserIdField(body: map<string, string>): string {
    if USER_ID_KEY in body then body[USER_ID_KEY] else ""
  }

  /**
   * List the members of an organization. A malformed id is refused before the
   * store is read, an unknown organization before `members` is read; otherwise
   * the reply holds exactly the member records whose `org_id` is the id's text
   * as given, each as often as `members` holds it.
   */
  function GetMembers(db: Database, orgIdText: string): (r: Reply<seq<Member>>)
    reads db
    ensures ParseId(orgIdText).None? ==> r == Fail(BAD_REQUEST, Message(INVALID_ID))
    ensures ParseId(orgIdText).Some? && ParseId(orgIdText).value !in db.organizations ==>
      r == Fail(BAD_REQUEST, Message(OPERATION_FAILED))
    ensures r.Ok? <==> ParseId(orgIdText).Some? && ParseId(orgIdText).value in db.organizations
    ensures r.Ok? ==> forall m ::
                        multiset(r.data)[m] == if m.orgId == TextRef(orgIdText) then multiset(db.members)[m] else 0
  {
    match ParseId(orgIdText)
    case None => Fail(BAD_REQUEST, Message(INVALID_ID))
    case Some(orgId) =>
      if orgId !in db.organizations then Fail(BAD_REQUEST, Message(OPERATION_FAILED))
      else Ok(FilterByOrg(db.members, TextRef(orgIdText)))
  }

  /**
   * Add the user named by the body's `user_id` to the organization `orgIdText`.
   * The checks run in this order: the organization id parses, the body parses,
   * the user id parses, the user exists, the organization exists, no member of
   * the organization has the user's email. Only when all pass is one record
   * `{org_id: orgId, email: user's email}` appended to `members`; `users` and
   * `organizations` are never written.
   */
  method CreateMember(db: Database, orgIdText: string, body: Option<map<string, string>>)
    returns (r: Reply<Member>)
    modifies db`members
    ensures match ParseId(orgIdText)
      case None => r == Fail(BAD_REQUEST, Message(INVALID_ID))
      case Some(orgId) =>
        match body
        case None => r == Fail(UNPROCESSABLE_ENTITY, MalformedJson)
        case Some(fields) =>
          match ParseId(UserIdField(fields))
          case None => r == Fail(BAD_REQUEST, Message(INVALID_ID))
          case Some(userId) =>
            if userId !in db.users || orgId !in db.organizations then
              r == Fail(BAD_REQUEST, Message(OPERATION_FAILED))
            else if Member(OidRef(orgId), EmailOf(db.users[userId])) in old(db.members) then
              r == Fail(BAD_REQUEST, Message(OPERATION_FAILED))
            else
              r == Ok(Member(OidRef(orgId), EmailOf(db.users[userId])))
    ensures db.members == if r.Ok? then old(db.members) + [r.data] else old(db.members)
    ensures old(MembersUnique(db.members)) ==> MembersUnique(db.members)
  {
    var parsedOrg := ParseId(orgIdText);
    if parsedOrg.None? {
      return Fail(BAD_REQUEST, Message(INVALID_ID));
    }
    var orgId := parsedOrg.value;

    if body.None? {
      return Fail(UNPROCESSABLE_ENTITY, MalformedJson);
    }
    var requestData := body.value;

    var parsedUser := ParseId(UserIdField(requestData));
    if parsedUser.None? {
      return Fail(BAD_REQUEST, Message(INVALID_ID));
    }
    var userId := parsedUser.value;

    var (userDoc, _) := FindById(db.users, userId);
    if userDoc.None? {
      return Fail(BAD_REQUEST, Message(OPERATION_FAILED));
    }
    var email := EmailOf(userDoc.value);

    if orgId !in db.organizations {
      return Fail(BAD_REQUEST, Message(OPERATION_FAILED));
    }

    var newMember := Member(OidRef(orgId), email);

    if newMember in db.members {
      return Fail(BAD_REQUEST, Message(OPERATION_FAILED));
    }

    if MembersUnique(db.members) {
      AppendKeepsMembersUnique(db.members, newMember);
    }
    db.members := db.members + [newMember];
    r := Ok(newMember);
  }

  /**
   * Two identical membership requests, one after the other: the second never
   * creates a record. If the first succeeded the second is refused as a
   * duplicate; if the first failed, the second fails the same way.
   */
  method CreateMemberTwice(db: Database, orgIdText: string, body: Option<map<string, string>>)
    returns (first: Reply<Member>, second: Reply<Member>)
    modifies db`members
    ensures first.Ok? ==> second == Fail(BAD_REQUEST, Message(OPERATION_FAILED))
    ensures first.Fail? ==> second == first
    ensures db.members == if first.Ok? then old(db.members) + [first.data] else old(db.members)
  {
    first := CreateMember(db, orgIdText, body);
    if first.Ok? {
      assert db.members[|db.members| - 1] == first.data;
    }
    second := CreateMember(db, orgIdText, body);
  }

  /**
   * One organization, one user (any two ids) with email "a@example.com", no members: the
   * first request adds the member, the repeat is refused, and a listing with
   * a text that is not an id is refused as an invalid id.
   */
  method CreateMemberScenario(org: ObjectId, user: ObjectId) {
    ParseHex(org);
    ParseHex(user);
    var db := new Database(map[user := map[EMAIL_KEY := Str("a@example.com")]], {org}, []);
    var body := Some(map[USER_ID_KEY := Hex(user)]);
    assert UserIdField(body.value) == Hex(user);
    assert EmailOf(db.users[user]) == "a@example.com";
    var first := CreateMember(db, Hex(org), body);
    assert first == Ok(Member(OidRef(org), "a@example.com"));
    var second := CreateMember(db, Hex(org), body);
    assert second == Fail(BAD_REQUEST, Message(OPERATION_FAILED));
    assert db.members == [Member(OidRef(org), "a@example.com")];
    assert GetMembers(db, "not-a-valid-id") == Fail(BAD_REQUEST, Message(INVALID_ID));
  }
}
