/**
 * The `cvs` table (streamlit_app.py:16-26) and the three operations on it:
 * `save_cv_to_db`, `get_all_cvs` and `delete_cv` (streamlit_app.py:55-80).
 *
 * The table is a sequence of rows in insertion order together with the
 * AUTOINCREMENT counter. `upload_date` is the text SQLite stores for
 * CURRENT_TIMESTAMP ('YYYY-MM-DD HH:MM:SS'); `ORDER BY upload_date DESC`
 * compares that text character by character.
 */
module CvStore {
  import opened Text

  /** One row of the table; the fields follow the column order 0..6. */
  datatype Cv = Cv(
    id: nat,
    filename: string,
    content: string,
    uploadDate: string,
    fileType: string,
    candidateName: string,
    summary: string)

  // ---------------------------------------------------------------------
  // Ordering of upload dates
  // ---------------------------------------------------------------------

  /** `a <= b` in SQLite's BINARY collation for text. */
  predicate LexLe(a: string, b: string)
    ensures IsPrefix(a, b) ==> LexLe(a, b)
    decreases |a|
  {
    if a == [] then true
    else if b == [] then false
    else if a[0] != b[0] then a[0] < b[0]
    else
      assert IsPrefix(a, b) ==> IsPrefix(a[1..], b[1..]) by {
        if IsPrefix(a, b) {
          assert b[1..][..|a| - 1] == b[..|a|][1..];
        }
      }
      LexLe(a[1..], b[1..])
  }

  lemma {:induction false} LexLeTotal(a: string, b: string)
    ensures LexLe(a, b) || LexLe(b, a)
    decreases |a|
  {
    if a != [] && b != [] && a[0] == b[0] {
      LexLeTotal(a[1..], b[1..]);
    }
  }

  lemma {:induction false} LexLeTrans(a: string, b: string, c: string)
    requires LexLe(a, b) && LexLe(b, c)
    ensures LexLe(a, c)
    decreases |a|
  {
    if a != [] && a[0] == b[0] && b[0] == c[0] {
      LexLeTrans(a[1..], b[1..], c[1..]);
    }
  }

  lemma {:induction false} LexLeAntisymmetric(a: string, b: string)
    requires LexLe(a, b) && LexLe(b, a)
    ensures a == b
    decreases |a|
  {
    if a != [] {
      LexLeAntisymmetric(a[1..], b[1..]);
      assert a == [a[0]] + a[1..] && b == [b[0]] + b[1..];
    }
  }

  /** Upload dates never increase along the list: most recent first. */
  predicate NewestFirst(s: seq<Cv>) {
    forall i, j :: 0 <= i < j < |s| ==> LexLe(s[j].uploadDate, s[i].uploadDate)
  }

  /** Places `x` into a list that is already newest first. */
  function InsertByDate(x: Cv, s: seq<Cv>): (r: seq<Cv>)
    requires NewestFirst(s)
    ensures NewestFirst(r)
    ensures multiset(r) == multiset(s) + multiset{x}
    decreases |s|
  {
    if s == [] then [x]
    else if LexLe(s[0].uploadDate, x.uploadDate) then
      NoneNewerThanHead(x, s);
      [x] + s
    else
      LexLeTotal(s[0].uploadDate, x.uploadDate);
      var r := InsertByDate(x, s[1..]);
      HeadNewest(s[0], s, r, x);
      assert s == [s[0]] + s[1..];
      [s[0]] + r
  }

  lemma NoneNewerThanHead(x: Cv, s: seq<Cv>)
    requires s != [] && NewestFirst(s) && LexLe(s[0].uploadDate, x.uploadDate)
    ensures NewestFirst([x] + s)
  {
    var r := [x] + s;
    forall i, j | 0 <= i < j < |r| ensures LexLe(r[j].uploadDate, r[i].uploadDate) {
      if i == 0 && j > 1 {
        LexLeTrans(s[j - 1].uploadDate, s[0].uploadDate, x.uploadDate);
      }
    }
  }

  lemma HeadNewest(h: Cv, s: seq<Cv>, r: seq<Cv>, x: Cv)
    requires s != [] && h == s[0] && NewestFirst(s) && NewestFirst(r)
    requires LexLe(x.uploadDate, h.uploadDate)
    requires multiset(r) == multiset(s[1..]) + multiset{x}
    ensures NewestFirst([h] + r)
  {
    var out := [h] + r;
    forall j | 0 < j < |out| ensures LexLe(out[j].uploadDate, h.uploadDate) {
      var y := r[j - 1];
      assert y in multiset(r);
      if y != x {
        assert y in multiset(s[1..]);
        var k :| 0 <= k < |s[1..]| && s[1..][k] == y;
        assert s[k + 1] == y;
      }
    }
  }

  /** The listing order of `SELECT * FROM cvs ORDER BY upload_date DESC`. */
  function SortByDate(s: seq<Cv>): (r: seq<Cv>)
    ensures NewestFirst(r)
    ensures multiset(r) == multiset(s)
    decreases |s|
  {
    if s == [] then []
    else
      assert s == [s[0]] + s[1..];
      InsertByDate(s[0], SortByDate(s[1..]))
  }

  /** A row uploaded strictly after every other row heads the listing. */
  lemma NewestListedFirst(rows: seq<Cv>, c: Cv)
    requires c !in rows
    requires forall k :: 0 <= k < |rows| ==> LexLe(rows[k].uploadDate, c.uploadDate) && rows[k].uploadDate != c.uploadDate
    ensures SortByDate(rows + [c])[0] == c
  {
    var r := SortByDate(rows + [c]);
    assert c in multiset(rows + [c]);
    assert c in multiset(r);
    var j :| 0 <= j < |r| && r[j] == c;
    assert r[0] in multiset(rows + [c]);
    if r[0] != c {
      assert r[0] in rows;
      var k :| 0 <= k < |rows| && rows[k] == r[0];
      assert LexLe(r[j].uploadDate, r[0].uploadDate);
      LexLeAntisymmetric(c.uploadDate, r[0].uploadDate);
      assert false;
    }
  }

  // ---------------------------------------------------------------------
  // Deletion by id
  // ---------------------------------------------------------------------

  /** `DELETE FROM cvs WHERE id = ?` on the rows. */
  function RemoveId(rows: seq<Cv>, id: nat): (r: seq<Cv>)
    ensures (forall k :: 0 <= k < |rows| ==> rows[k].id != id) ==> r == rows
    ensures |r| <= |rows|
    decreases |rows|
  {
    if rows == [] then []
    else if rows[0].id == id then RemoveId(rows[1..], id)
    else
      assert rows == [rows[0]] + rows[1..];
      [rows[0]] + RemoveId(rows[1..], id)
  }

  /** After the delete, the table holds exactly the rows whose id differs. */
  lemma {:induction false} RemoveIdMembers(rows: seq<Cv>, id: nat)
    ensures forall c :: c in RemoveId(rows, id) <==> c in rows && c.id != id
    decreases |rows|
  {
    if rows != [] {
      RemoveIdMembers(rows[1..], id);
      assert rows == [rows[0]] + rows[1..];
    }
  }

  /** Ids increase along the rows, so no two rows share an id. */
  predicate IdsAscending(rows: seq<Cv>) {
    forall i, j :: 0 <= i < j < |rows| ==> rows[i].id < rows[j].id
  }

  lemma AscendingTail(rows: seq<Cv>)
    requires rows != [] && IdsAscending(rows)
    ensures IdsAscending(rows[1..])
    ensures forall j :: 0 <= j < |rows[1..]| ==> rows[1..][j].id != rows[0].id
  {
    forall j | 0 <= j < |rows[1..]| ensures rows[1..][j].id != rows[0].id {
      assert rows[1..][j] == rows[j + 1];
    }
  }

  /** Deleting the first row's id, carried by no other row, leaves the other rows. */
  lemma RemoveIdFirst(rows: seq<Cv>)
    requires rows != []
    requires forall j :: 0 < j < |rows| ==> rows[j].id != rows[0].id
    ensures RemoveId(rows, rows[0].id) == rows[1..]
  {
    var id, tail := rows[0].id, rows[1..];
    forall j | 0 <= j < |tail| ensures tail[j].id != id {
      assert tail[j] == rows[j + 1];
    }
  }

  /** Deleting an id that only row `k` carries removes that row and keeps the others in order. */
  lemma {:induction false} RemoveIdOnly(rows: seq<Cv>, k: nat)
    requires k < |rows|
    requires forall j :: 0 <= j < |rows| && j != k ==> rows[j].id != rows[k].id
    ensures RemoveId(rows, rows[k].id) == rows[..k] + rows[k + 1..]
    decreases |rows|
  {
    if k == 0 {
      RemoveIdFirst(rows);
    } else {
      var id, tail := rows[k].id, rows[1..];
      forall j | 0 <= j < |tail| && j != k - 1 ensures tail[j].id != tail[k - 1].id {
        assert tail[j] == rows[j + 1];
      }
      RemoveIdOnly(tail, k - 1);
      RemoveIdKeepsHead(rows, id);
      assert rows[..k] + rows[k + 1..] == [rows[0]] + (tail[..k - 1] + tail[k..]);
    }
  }

  /** A first row with another id stays in front. */
  lemma RemoveIdKeepsHead(rows: seq<Cv>, id: nat)
    requires rows != [] && rows[0].id != id
    ensures RemoveId(rows, id) == [rows[0]] + RemoveId(rows[1..], id)
  {
  }

  /** In the table, whose ids ascend, deleting a stored id removes exactly that one row. */
  lemma RemoveIdExactlyOne(rows: seq<Cv>, k: nat)
    requires IdsAscending(rows) && k < |rows|
    ensures RemoveId(rows, rows[k].id) == rows[..k] + rows[k + 1..]
  {
    forall j | 0 <= j < |rows| && j != k ensures rows[j].id != rows[k].id {
      if j < k {
        assert rows[j].id < rows[k].id;
      } else {
        assert rows[k].id < rows[j].id;
      }
    }
    RemoveIdOnly(rows, k);
  }

  // ---------------------------------------------------------------------
  // The table
  // ---------------------------------------------------------------------

  class CvTable {
    /** Rows in insertion order. */
    var rows: seq<Cv>
    /** The id the next insert receives: one more than the largest ever issued. */
    var nextId: nat
    /** Every id the table has ever issued, including those of deleted rows. */
    ghost var issued: set<nat>

    ghost predicate Valid()
      reads this
    {
      && nextId >= 1
      && (forall i :: i in issued ==> 1 <= i < nextId)
      && (forall k :: 0 <= k < |rows| ==> rows[k].id in issued)
      && IdsAscending(rows)
    }

    /** `init_cv_database` on a fresh database file: an empty table. */
    constructor ()
      ensures Valid()
      ensures rows == [] && nextId == 1 && issued == {}
    {
      rows := [];
      nextId := 1;
      issued := {};
    }

    /**
     * `save_cv_to_db`: the row gets an id larger than every id ever issued,
     * even those of deleted rows, and `now` as its upload date.
     */
    method Insert(filename: string, content: string, fileType: string,
                  candidateName: string, summary: string, now: string) returns (id: nat)
      requires Valid()
      modifies this
      ensures Valid()
      ensures id == old(nextId) && forall i :: i in old(issued) ==> i < id
      ensures rows == old(rows) + [Cv(id, filename, content, now, fileType, candidateName, summary)]
      ensures issued == old(issued) + {id} && nextId == id + 1
    {
      id := nextId;
      rows := rows + [Cv(id, filename, content, now, fileType, candidateName, summary)];
      issued := issued + {id};
      nextId := nextId + 1;
    }

    /** `delete_cv`: removes the row with that id; an unknown id changes nothing. */
    method Delete(id: nat)
      requires Valid()
      modifies this
      ensures Valid()
      ensures rows == RemoveId(old(rows), id)
      ensures nextId == old(nextId) && issued == old(issued)
    {
      RemoveIdMembers(rows, id);
      RemoveIdKeepsAscending(rows, id);
      rows := RemoveId(rows, id);
    }

    /** `get_all_cvs`: every stored row exactly once, newest upload first. */
    function ListAll(): (r: seq<Cv>)
      reads this
      ensures multiset(r) == multiset(rows)
      ensures NewestFirst(r)
    {
      SortByDate(rows)
    }
  }

  /** Deleting rows never brings in a smaller id. */
  lemma {:induction false} RemoveIdAbove(rows: seq<Cv>, id: nat, lo: nat)
    requires forall k :: 0 <= k < |rows| ==> lo < rows[k].id
    ensures forall k :: 0 <= k < |RemoveId(rows, id)| ==> lo < RemoveId(rows, id)[k].id
    decreases |rows|
  {
    if rows != [] {
      var tail := rows[1..];
      forall k | 0 <= k < |tail| ensures lo < tail[k].id {
        assert tail[k] == rows[k + 1];
      }
      RemoveIdAbove(tail, id, lo);
    }
  }

  /** Deleting rows keeps the ids ascending. */
  lemma {:induction false} RemoveIdKeepsAscending(rows: seq<Cv>, id: nat)
    requires IdsAscending(rows)
    ensures IdsAscending(RemoveId(rows, id))
    decreases |rows|
  {
    if rows != [] {
      var tail := rows[1..];
      AscendingTail(rows);
      RemoveIdKeepsAscending(tail, id);
      if rows[0].id != id {
        forall k | 0 <= k < |tail| ensures rows[0].id < tail[k].id {
          assert tail[k] == rows[k + 1];
        }
        RemoveIdAbove(tail, id, rows[0].id);
        ConsAscending(rows[0], RemoveId(tail, id));
      }
    }
  }

  lemma ConsAscending(c: Cv, s: seq<Cv>)
    requires IdsAscending(s) && forall k :: 0 <= k < |s| ==> c.id < s[k].id
    ensures IdsAscending([c] + s)
  {
    var r := [c] + s;
    forall i, j | 0 <= i < j < |r| ensures r[i].id < r[j].id {
      if i > 0 {
        assert r[i] == s[i - 1];
      }
      assert r[j] == s[j - 1];
    }
  }

  // ---------------------------------------------------------------------
  // Per-type counts (streamlit_app.py:412-414)
  // ---------------------------------------------------------------------

  /** `len([cv for cv in cvs if cv[4] == t])`. */
  function CountType(cvs: seq<Cv>, t: string): (n: nat)
    ensures n <= |cvs|
    decreases |cvs|
  {
    if cvs == [] then 0 else (if cvs[0].fileType == t then 1 else 0) + CountType(cvs[1..], t)
  }

  lemma {:induction false} CountTypeAppend(a: seq<Cv>, b: seq<Cv>, t: string)
    ensures CountType(a + b, t) == CountType(a, t) + CountType(b, t)
    decreases |a|
  {
    if a != [] {
      assert (a + b)[0] == a[0];
      assert (a + b)[1..] == a[1..] + b;
      CountTypeAppend(a[1..], b, t);
      assert CountType(a + b, t) == (if a[0].fileType == t then 1 else 0) + CountType(a[1..] + b, t);
    } else {
      assert a + b == b;
    }
  }

  lemma CountTypeRemoveAt(b: seq<Cv>, k: nat, t: string)
    requires k < |b|
    ensures CountType(b, t) == CountType(b[..k] + b[k + 1..], t) + (if b[k].fileType == t then 1 else 0)
    ensures multiset(b[..k] + b[k + 1..]) == multiset(b) - multiset{b[k]}
  {
    assert b == b[..k] + ([b[k]] + b[k + 1..]);
    CountTypeAppend(b[..k], [b[k]] + b[k + 1..], t);
    CountTypeAppend([b[k]], b[k + 1..], t);
    CountTypeAppend(b[..k], b[k + 1..], t);
  }

  /** The counts depend only on which rows there are, not on the listing order. */
  lemma {:induction false} CountTypePermutation(a: seq<Cv>, b: seq<Cv>, t: string)
    requires multiset(a) == multiset(b)
    ensures CountType(a, t) == CountType(b, t)
    decreases |a|
  {
    if a != [] {
      var x := a[0];
      assert x in multiset(a);
      var k :| 0 <= k < |b| && b[k] == x;
      CountTypeRemoveAt(b, k, t);
      assert a == [x] + a[1..];
      assert multiset(a[1..]) == multiset(a) - multiset{x};
      CountTypePermutation(a[1..], b[..k] + b[k + 1..], t);
    } else {
      assert b == [];
    }
  }
}
