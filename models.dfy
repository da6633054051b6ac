/** The account record and its role, as declared by the `Auth` table model:
    a closed `Role` enum whose members carry string values, and a record with
    a primary-key id, a creation time, a password digest, a unique email and
    a role that defaults to `user`. */
module Models {
  import opened Wrappers

  /** `Role(str, Enum)`: exactly two members. */
  datatype Role = User | Admin {
    /** The enum member's `.value`. */
    function Value(): string {
      match this
      case User => "user"
      case Admin => "admin"
    }
  }

  /** `Role(s)`: the member whose value is `s`, if there is one; any other
      string is refused. */
  function RoleFromValue(s: string): (r: Option<Role>)
    ensures r.Some? ==> r.value.Value() == s
    ensures r.None? <==> s != "user" && s != "admin"
  {
    if s == "user" then Some(User)
    else if s == "admin" then Some(Admin)
    else None
  }

  /** A `uuid.UUID`, held in its canonical string form, so `str(id)` is the
      identity on it. */
  type Uuid = string

  /** A `datetime` value as produced by `datetime.utcnow()`. */
  type Timestamp = int

  /** One row of the `auth` table. No field is optional: every column is
      declared non-nullable. */
  datatype Auth = Auth(
    id: Uuid,
    createdAt: Timestamp,
    hashedPassword: string,
    email: string,
    role: Role)

  /** The `Auth(...)` constructor: `id` and `createdAt` come from the default
      factories (passed in here), `role` defaults to `Role.user`. */
  function NewAuth(email: string, hashedPassword: string, id: Uuid, createdAt: Timestamp,
                   role: Role := Role.User): Auth
  {
    Auth(id, createdAt, hashedPassword, email, role)
  }

  /** A record built without a role is a `user` record. */
  lemma NewAuthRoleDefaultsToUser(email: string, hashedPassword: string, id: Uuid, createdAt: Timestamp)
    ensures NewAuth(email, hashedPassword, id, createdAt).role == User
    ensures NewAuth(email, hashedPassword, id, createdAt).role.Value() == "user"
  {
  }

  /** Every role value names back its role, and only the two role values do. */
  lemma RoleValueRoundTrip(r: Role, s: string)
    ensures RoleFromValue(r.Value()) == Some(r)
    ensures RoleFromValue(s).Some? <==> s in {"user", "admin"}
  {
    match r
    case User =>
    case Admin =>
  }

  /** The set of emails stored in a table. */
  function Emails(rows: seq<Auth>): set<string> {
    set a | a in rows :: a.email
  }

  /** The set of primary keys stored in a table. */
  function Ids(rows: seq<Auth>): set<Uuid> {
    set a | a in rows :: a.id
  }

  /** `email` is declared `unique=True`. */
  predicate UniqueEmails(rows: seq<Auth>) {
    forall i, j :: 0 <= i < j < |rows| ==> rows[i].email != rows[j].email
  }

  /** `id` is the primary key. */
  predicate UniqueIds(rows: seq<Auth>) {
    forall i, j :: 0 <= i < j < |rows| ==> rows[i].id != rows[j].id
  }

  /** What the table's constraints guarantee of its contents. */
  predicate TableInvariant(rows: seq<Auth>) {
    UniqueEmails(rows) && UniqueIds(rows)
  }

  /** With unique emails, an email identifies at most one row. */
  lemma SameEmailSameRow(rows: seq<Auth>, a: Auth, b: Auth)
    requires UniqueEmails(rows) && a in rows && b in rows && a.email == b.email
    ensures a == b
  {
    var i :| 0 <= i < |rows| && rows[i] == a;
    var j :| 0 <= j < |rows| && rows[j] == b;
    assert !(i < j) && !(j < i);
  }

  /** The table's constraints accept a new row `a`: neither its primary key
      nor its email is taken. */
  predicate Admits(rows: seq<Auth>, a: Auth) {
    a.id !in Ids(rows) && a.email !in Emails(rows)
  }

  /** Inserting a row the constraints accept keeps the constraints. */
  lemma InsertPreservesInvariant(rows: seq<Auth>, a: Auth)
    requires TableInvariant(rows) && Admits(rows, a)
    ensures TableInvariant(rows + [a])
    ensures Emails(rows + [a]) == Emails(rows) + {a.email}
    ensures Ids(rows + [a]) == Ids(rows) + {a.id}
  {
    var rows' := rows + [a];
    forall i, j | 0 <= i < j < |rows'|
      ensures rows'[i].email != rows'[j].email && rows'[i].id != rows'[j].id
    {
      if j == |rows| {
        assert rows'[i] == rows[i] && rows[i] in rows;
      } else {
        assert rows'[i] == rows[i] && rows'[j] == rows[j];
      }
    }
    assert forall b :: b in rows' <==> b in rows || b == a;
  }
}
