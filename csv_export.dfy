/**
 * The CSV export (`write_csv_to_s3`): every user becomes one row holding six
 * fixed columns, in a fixed order, after one header row; the file always goes
 * to the same object key. The CSV text itself (quoting, line endings, UTF-8)
 * and the upload are left to the libraries and not modelled: a row is the
 * list of cell values handed to the CSV writer.
 */
module CsvExport {
  import opened Rest

  /** The column names, which are also the header row. */
  const Fields: seq<string> := ["id", "name", "fullName", "siteRole", "lastLogin", "email"]

  /** The top-level folder of the bucket. */
  const Prefix := "tableau"

  const ObjectKey := Prefix + "/tableau_server_users.csv"

  /** `u.get(k, "")` */
  function Cell(u: User, key: string): string {
    if key in u then u[key] else ""
  }

  /** The row written for one user: one cell per column, in column order. */
  function Project(u: User): (row: seq<string>)
    ensures |row| == |Fields|
    ensures forall j :: 0 <= j < |Fields| ==> row[j] == Cell(u, Fields[j])
  {
    [Cell(u, "id"), Cell(u, "name"), Cell(u, "fullName"), Cell(u, "siteRole"), Cell(u, "lastLogin"), Cell(u, "email")]
  }

  /** The rows written for the users, in listing order. */
  function Rows(users: seq<User>): seq<seq<string>> {
    seq(|users|, i requires 0 <= i < |users| => Project(users[i]))
  }

  /** The whole table: header first, then one row per user. */
  function Table(users: seq<User>): seq<seq<string>> {
    [Fields] + Rows(users)
  }

  /**
   * The table has one row more than there are users, every row has one cell
   * per column, and row `i + 1` holds the columns of user `i`; a column the
   * user lacks is written as an empty cell.
   */
  lemma TableShape(users: seq<User>)
    ensures var t := Table(users);
      && |t| == |users| + 1
      && t[0] == Fields
      && (forall i :: 0 <= i < |t| ==> |t[i]| == |Fields|)
      && (forall i, j :: 0 <= i < |users| && 0 <= j < |Fields| ==>
            t[i + 1][j] == (if Fields[j] in users[i] then users[i][Fields[j]] else ""))
  {
    var t := Table(users);
    forall i | 0 <= i < |t|
      ensures |t[i]| == |Fields|
    {
      if i > 0 {
        assert t[i] == Project(users[i - 1]);
      }
    }
  }

  /** Exporting the users of two listings one after the other gives the rows of both. */
  lemma TableAppend(a: seq<User>, b: seq<User>)
    ensures Table(a + b) == Table(a) + Rows(b)
  {
    assert Rows(a + b) == Rows(a) + Rows(b);
  }

  /**
   * Only the six columns matter: two users that agree on them (present with
   * the same value, or both absent) produce the same row, whatever other
   * attributes the server sent; and users with the same row agree on the six
   * columns up to a missing value being the same as an empty one.
   */
  lemma ProjectOnlyReadsFields(u: User, v: User)
    ensures (forall j :: 0 <= j < |Fields| ==> Cell(u, Fields[j]) == Cell(v, Fields[j])) <==> Project(u) == Project(v)
  {
    if Project(u) == Project(v) {
      forall j | 0 <= j < |Fields|
        ensures Cell(u, Fields[j]) == Cell(v, Fields[j])
      {
        assert Project(u)[j] == Project(v)[j];
      }
    }
  }

  /** Attributes outside the six columns never reach the file. */
  lemma ExtraAttributesIgnored(u: User, extra: User)
    requires forall k :: k in extra ==> k !in Fields
    ensures Project(u + extra) == Project(u)
  {
    forall j | 0 <= j < |Fields|
      ensures Cell(u + extra, Fields[j]) == Cell(u, Fields[j])
    {
      assert Fields[j] !in extra;
    }
    ProjectOnlyReadsFields(u + extra, u);
  }

  /** A user the XML fallback describes only by id and name gets four empty cells. */
  lemma SparseUserExample()
    ensures Project(map["id" := "42", "name" := "ann"]) == ["42", "ann", "", "", "", ""]
  {
  }

  /**
   * `write_csv_to_s3(users, bucket)`: the header, then one row per user, and
   * the fixed key under which the file is stored (always the same, so every
   * run overwrites the previous export).
   */
  method WriteCsv(users: seq<User>) returns (rows: seq<seq<string>>, key: string)
    ensures rows == Table(users)
    ensures key == "tableau/tableau_server_users.csv"
  {
    rows := [Fields];
    var i := 0;
    while i < |users|
      invariant 0 <= i <= |users|
      invariant rows == Table(users[..i])
    {
      assert users[..i + 1] == users[..i] + [users[i]];
      TableAppend(users[..i], [users[i]]);
      rows := rows + [Project(users[i])];
      i := i + 1;
    }
    assert users[..i] == users;
    key := ObjectKey;
  }
}
