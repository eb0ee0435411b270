/**
 * The document store the handlers run against, held in memory: the `users`
 * collection keyed by object id, the set of organization ids, and the
 * `members` collection in insertion order. Also the replies a handler sends
 * and the queries the handlers put to the store.
 */
module Store {
  import opened Wrappers
  import opened ObjectIds

  /** A field value of a user document. */
  datatype Value = Str(s: string) | Num(n: int) | Flag(b: bool) | Null | Stamp(t: int)

  /** A user document, field name to value (its `_id` is the map key in `users`). */
  type Doc = map<string, Value>

  const EMAIL_KEY := "email"
  const CREATED_AT_KEY := "created_at"
  const USER_ID_KEY := "user_id"

  /**
   * What a member record's `org_id` holds: a parsed object id, or a text.
   * The two never compare equal in a filter.
   */
  datatype OrgRef = OidRef(id: ObjectId) | TextRef(text: string)

  /** A member record: the organization it belongs to and the member's email. */
  datatype Member = Member(orgId: OrgRef, email: string)

  /** The error carried by an error reply. */
  datatype Error =
    | Message(text: string)  // an error the handler makes from a fixed text
    | InvalidHex             // the error the id parser returns
    | MalformedJson          // the error the request-body parser returns
    | NoDocuments            // the store's answer to a find that matched nothing
    | DuplicateKey           // the store's answer to an insert whose id is taken

  const INVALID_ID := "invalid id"
  const OPERATION_FAILED := "operation failed"

  const BAD_REQUEST := 400
  const NOT_FOUND := 404
  const UNPROCESSABLE_ENTITY := 422
  const INTERNAL_SERVER_ERROR := 500

  /** What a handler writes back: a success envelope, an error envelope, or nothing. */
  datatype Reply<T> = Ok(data: T) | Fail(status: int, error: Error) | Silent

  class Database {
    var users: map<ObjectId, Doc>
    var organizations: set<ObjectId>
    var members: seq<Member>

    constructor (users: map<ObjectId, Doc>, organizations: set<ObjectId>, members: seq<Member>)
      ensures this.users == users && this.organizations == organizations && this.members == members
    {
      this.users := users;
      this.organizations := organizations;
      this.members := members;
    }
  }

  /**
   * Find-one by id in `users`: the document, or no document together with
   * the store's not-found error.
   */
  function FindById(users: map<ObjectId, Doc>, id: ObjectId): (r: (Option<Doc>, Option<Error>))
    ensures r.0.Some? <==> id in users
    ensures r.0.Some? ==> r.0.value == users[id] && r.1 == None
    ensures r.0.None? ==> r.1 == Some(NoDocuments)
  {
    if id in users then (Some(users[id]), None) else (None, Some(NoDocuments))
  }

  /** The email a user document decodes to: its `email` text, or empty when it has none. */
  function EmailOf(doc: Doc): string {
    if EMAIL_KEY in doc && doc[EMAIL_KEY].Str? then doc[EMAIL_KEY].s else ""
  }

  /** Find-one on `users` by `{"email": email}` finds a document. */
  predicate EmailTaken(users: map<ObjectId, Doc>, email: string) {
    exists id :: id in users && EMAIL_KEY in users[id] && users[id][EMAIL_KEY] == Str(email)
  }

  /** No two users hold the same `email` value. */
  ghost predicate EmailsUnique(users: map<ObjectId, Doc>) {
    forall a, b :: a in users && b in users && a != b && EMAIL_KEY in users[a] && EMAIL_KEY in users[b] ==>
      users[a][EMAIL_KEY] != users[b][EMAIL_KEY]
  }

  /** At most one member record per (organization, email). */
  ghost predicate MembersUnique(members: seq<Member>) {
    forall i, j :: 0 <= i < j < |members| ==> members[i] != members[j]
  }

  /** Find-many on `members` by `{"org_id": key}`, in store order. */
  function FilterByOrg(members: seq<Member>, key: OrgRef): (r: seq<Member>)
    ensures forall m :: multiset(r)[m] == if m.orgId == key then multiset(members)[m] else 0
    ensures |r| <= |members|
  {
    if members == [] then []
    else
      assert members == [members[0]] + members[1..];
      (if members[0].orgId == key then [members[0]] else []) + FilterByOrg(members[1..], key)
  }

  /** Adding a record that is not yet there keeps members unique. */
  lemma AppendKeepsMembersUnique(members: seq<Member>, m: Member)
    requires MembersUnique(members) && m !in members
    ensures MembersUnique(members + [m])
  {
  }

  /** Adding a user whose email is not taken keeps emails unique. */
  lemma InsertKeepsEmailsUnique(users: map<ObjectId, Doc>, id: ObjectId, doc: Doc)
    requires EmailsUnique(users) && id !in users
    requires EMAIL_KEY in doc && doc[EMAIL_KEY].Str? && !EmailTaken(users, doc[EMAIL_KEY].s)
    ensures EmailsUnique(users[id := doc])
  {
  }

  /** Removing a user keeps emails unique. */
  lemma RemoveKeepsEmailsUnique(users: map<ObjectId, Doc>, id: ObjectId)
    requires EmailsUnique(users)
    ensures EmailsUnique(users - {id})
  {
  }

  /** Setting fields other than `email` on one user keeps emails unique. */
  lemma SetKeepsEmailsUnique(users: map<ObjectId, Doc>, id: ObjectId, fields: Doc)
    requires EmailsUnique(users) && id in users && EMAIL_KEY !in fields
    ensures EmailsUnique(users[id := users[id] + fields])
  {
  }
}
