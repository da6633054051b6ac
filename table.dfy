/** The `auth` table as the two routes see it through their database session:
    the queries they run (`select(Auth).where(Auth.email == email)` followed by
    `scalar_one_or_none()`, and the reload by primary key that `refresh`
    performs) and the insert that `add` + `commit` perform, which the table's
    primary-key and unique-email constraints guard. */
module Table {
  import opened Wrappers
  import opened Models

  /** Errors the database layer raises and the routes do not catch. */
  datatype DbError =
    | MultipleResultsFound  // `scalar_one_or_none` saw more than one row
    | IntegrityError        // `commit` violated the primary-key or unique-email constraint

  /** `select(Auth).where(Auth.email == email)`: the matching rows. */
  function SelectByEmail(rows: seq<Auth>, email: string): (r: seq<Auth>)
    ensures forall a :: a in r <==> a in rows && a.email == email
    ensures r == [] <==> email !in Emails(rows)
    ensures |r| <= |rows|
  {
    if rows == [] then []
    else if rows[0].email == email then [rows[0]] + SelectByEmail(rows[1..], email)
    else SelectByEmail(rows[1..], email)
  }

  /** `scalar_one_or_none()`: no row gives none, one row gives that row,
      more rows raise. */
  function ScalarOneOrNone(rs: seq<Auth>): (r: Result<Option<Auth>, DbError>)
    ensures r.Success? <==> |rs| <= 1
    ensures r.Failure? ==> r.error == MultipleResultsFound
    ensures r == Success(None) <==> rs == []
    ensures r.Success? && r.value.Some? ==> rs == [r.value.value]
  {
    if |rs| == 0 then Success(None)
    else if |rs| == 1 then Success(Some(rs[0]))
    else Failure(MultipleResultsFound)
  }

  /** The email lookup both routes start with. */
  function LookupEmail(rows: seq<Auth>, email: string): Result<Option<Auth>, DbError> {
    ScalarOneOrNone(SelectByEmail(rows, email))
  }

  /** The row whose primary key is `id`, which `session.refresh` reloads. */
  function GetById(rows: seq<Auth>, id: Uuid): (r: Option<Auth>)
    ensures r.Some? ==> r.value in rows && r.value.id == id
    ensures r.None? <==> id !in Ids(rows)
  {
    if rows == [] then None
    else if rows[0].id == id then Some(rows[0])
    else GetById(rows[1..], id)
  }

  /** With unique emails the email query matches at most one row. */
  lemma {:induction false} SelectByEmailAtMostOne(rows: seq<Auth>, email: string)
    requires UniqueEmails(rows)
    ensures |SelectByEmail(rows, email)| <= 1
  {
    if rows != [] {
      var tail := rows[1..];
      assert UniqueEmails(tail) by {
        forall i, j | 0 <= i < j < |tail| ensures tail[i].email != tail[j].email {
          assert tail[i] == rows[i + 1] && tail[j] == rows[j + 1];
        }
      }
      SelectByEmailAtMostOne(tail, email);
      if rows[0].email == email {
        forall b | b in tail ensures b.email != email {
          var k :| 0 <= k < |tail| && tail[k] == b;
          assert rows[k + 1] == b;
        }
        assert email !in Emails(tail);
      }
    }
  }

  /** Under the table's constraints the email lookup never raises, finds
      nothing exactly when the email is not stored, and otherwise finds the
      row holding that email. */
  lemma LookupEmailUnderInvariant(rows: seq<Auth>, email: string)
    requires TableInvariant(rows)
    ensures LookupEmail(rows, email).Success?
    ensures LookupEmail(rows, email).value.None? <==> email !in Emails(rows)
    ensures LookupEmail(rows, email).value.Some? ==>
              LookupEmail(rows, email).value.value in rows &&
              LookupEmail(rows, email).value.value.email == email
  {
    SelectByEmailAtMostOne(rows, email);
    var rs := SelectByEmail(rows, email);
    if email in Emails(rows) {
      var a :| a in rows && a.email == email;
      assert a in rs;
    }
    if rs != [] {
      assert rs[0] in rs;
    }
  }

  /** With unique primary keys, looking a stored row up by its id gives
      back that very row. */
  lemma {:induction false} GetByIdFindsRow(rows: seq<Auth>, a: Auth)
    requires UniqueIds(rows) && a in rows
    ensures GetById(rows, a.id) == Some(a)
  {
    if rows[0] != a {
      var tail := rows[1..];
      assert a in tail;
      assert UniqueIds(tail) by {
        forall i, j | 0 <= i < j < |tail| ensures tail[i].id != tail[j].id {
          assert tail[i] == rows[i + 1] && tail[j] == rows[j + 1];
        }
      }
      var k :| 0 <= k < |tail| && tail[k] == a;
      assert rows[k + 1] == a;
      assert rows[0].id != a.id;
      GetByIdFindsRow(tail, a);
    }
  }

  /** The `auth` table, whose rows the session reads and appends to. */
  class AuthTable {
    var rows: seq<Auth>

    ghost predicate Valid()
      reads this
    {
      TableInvariant(rows)
    }

    /** An empty table. */
    constructor ()
      ensures Valid() && rows == []
    {
      rows := [];
    }

    /** `session.add(a)` then `session.commit()`: the row is stored if the
        constraints admit it, otherwise the commit fails and nothing is
        stored. */
    method Commit(a: Auth) returns (ok: bool)
      requires Valid()
      modifies this
      ensures Valid()
      ensures ok == Admits(old(rows), a)
      ensures rows == if ok then old(rows) + [a] else old(rows)
    {
      ok := a.id !in Ids(rows) && a.email !in Emails(rows);
      if ok {
        InsertPreservesInvariant(rows, a);
        rows := rows + [a];
      }
    }
  }
}
