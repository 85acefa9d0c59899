/**
 * The user table `sys.users` (src/core/users/user.entity.ts): its rows and
 * the unique indexes the database enforces on them.
 */
module Users {
  import opened Wrappers
  import opened Errors

  /** A row of `sys.users`. Instants are epoch milliseconds; `None` is SQL NULL. */
  datatype User = User(
    id: string,
    username: string,
    email: string,
    password: string,
    nationalId: string,
    isActive: bool,
    phoneNumber: Option<string>,
    firstName: string,
    lastName: string,
    createdAt: int,
    updatedAt: int,
    deletedAt: Option<int>,
    isSuperRoot: bool)

  /** Two rows that no unique index allows side by side. */
  predicate Clash(u: User, v: User) {
    u.username == v.username || u.email == v.email || u.nationalId == v.nationalId
  }

  /** The primary key `id` and the unique indexes on username, email and national id. */
  predicate UniqueKeys(rows: seq<User>) {
    forall i, j :: 0 <= i < j < |rows| ==> rows[i].id != rows[j].id && !Clash(rows[i], rows[j])
  }

  /**
   * A row the repository's finders return. `deletedAt` is a delete-date column, so
   * TypeORM adds `deletedAt IS NULL` to every find and to every join on the table.
   */
  predicate Visible(u: User) { u.deletedAt.None? }

  /** `findOne({ where: { id } })`: the first row with that id that is not soft-deleted. */
  function FindById(rows: seq<User>, id: string): (r: Option<User>)
    ensures r.Some? ==> r.value in rows && r.value.id == id && Visible(r.value)
    ensures r.None? <==> forall u :: u in rows ==> u.id != id || !Visible(u)
  {
    if rows == [] then None
    else if rows[0].id == id && Visible(rows[0]) then Some(rows[0])
    else FindById(rows[1..], id)
  }

  /** With a unique primary key a row that is not soft-deleted is the row found by its id. */
  lemma {:induction false} FindByIdUnique(rows: seq<User>, i: nat)
    requires UniqueKeys(rows) && i < |rows| && Visible(rows[i])
    ensures FindById(rows, rows[i].id) == Some(rows[i])
  {
    if i > 0 {
      assert UniqueKeys(rows[1..]) by {
        forall a, b | 0 <= a < b < |rows[1..]|
          ensures rows[1..][a].id != rows[1..][b].id && !Clash(rows[1..][a], rows[1..][b])
        {
          assert rows[1..][a] == rows[a + 1] && rows[1..][b] == rows[b + 1];
        }
      }
      FindByIdUnique(rows[1..], i - 1);
    }
  }

  /** Writing `u` over the row with its id would break a unique index. */
  predicate Collides(rows: seq<User>, u: User) {
    exists i :: 0 <= i < |rows| && rows[i].id != u.id && Clash(rows[i], u)
  }

  /** The table after the row whose id is `u.id` is overwritten by `u`. */
  function Replace(rows: seq<User>, u: User): (r: seq<User>)
    ensures |r| == |rows|
    ensures forall i :: 0 <= i < |rows| && rows[i].id != u.id ==> r[i] == rows[i]
    ensures forall i :: 0 <= i < |rows| && rows[i].id == u.id ==> r[i] == u
  {
    if rows == [] then []
    else [if rows[0].id == u.id then u else rows[0]] + Replace(rows[1..], u)
  }

  /** An overwrite that clashes with no other row keeps every unique index. */
  lemma ReplaceKeepsUniqueKeys(rows: seq<User>, u: User)
    requires UniqueKeys(rows) && !Collides(rows, u)
    ensures UniqueKeys(Replace(rows, u))
  {
    var r := Replace(rows, u);
    forall i, j | 0 <= i < j < |r| ensures r[i].id != r[j].id && !Clash(r[i], r[j]) {
      if rows[i].id == u.id {
        assert rows[j].id != u.id && !Clash(rows[j], u);
      } else if rows[j].id == u.id {
        assert !Clash(rows[i], u);
      }
    }
  }

  /** A row rewritten without touching its id, username, email or national id clashes with nothing. */
  lemma SameKeysNeverCollide(rows: seq<User>, loaded: User, u: User)
    requires UniqueKeys(rows) && loaded in rows
    requires u.id == loaded.id && u.username == loaded.username
    requires u.email == loaded.email && u.nationalId == loaded.nationalId
    ensures !Collides(rows, u)
  {
    var i :| 0 <= i < |rows| && rows[i] == loaded;
    assert forall k :: 0 <= k < |rows| && k != i ==> !Clash(rows[k], rows[i]);
  }

  /** The repository of `sys.users`. */
  class UserTable {
    var rows: seq<User>

    ghost predicate Valid()
      reads this
    {
      UniqueKeys(rows)
    }

    constructor (rows: seq<User>)
      requires UniqueKeys(rows)
      ensures Valid() && this.rows == rows
    {
      this.rows := rows;
    }

    /** `save(user)` for a user loaded from this table: an UPDATE by primary key. */
    method Save(u: User) returns (r: Result<(), Error>)
      requires Valid()
      modifies this
      ensures Valid()
      ensures r == if Collides(old(rows), u) then Failure(UniqueViolation) else Success(())
      ensures rows == if r.Success? then Replace(old(rows), u) else old(rows)
    {
      if exists i :: 0 <= i < |rows| && rows[i].id != u.id && Clash(rows[i], u) {
        r := Failure(UniqueViolation);
      } else {
        ReplaceKeepsUniqueKeys(rows, u);
        rows := Replace(rows, u);
        r := Success(());
      }
    }
  }
}
