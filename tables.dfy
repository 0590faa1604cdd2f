/**
 * The two CSV files behind the store, as the record-store layer sees them:
 * a sequence of data rows (column name to cell text) and whether the file
 * exists. The header row is implicit in the rows' keys. Whether the file
 * system accepts a write to the file is an injected flag of the environment.
 */
module CsvFile {
  import opened Values

  /**
   * One data row as csv.DictReader yields it. A column the header lacks is an
   * absent key; a cell missing from a short row is modelled as "" (Python
   * gives None; README "## Left out" lists where the two differ).
   */
  type Row = map<string, string>

  /** The row csv.DictWriter writes for `r` under `fields`: every field, "" when `r` lacks it. */
  function Project(r: Row, fields: seq<string>): (p: Row)
    ensures p.Keys == set k | k in fields
    ensures forall k :: k in fields ==> p[k] == Get(r, k, "")
  {
    map k | k in fields :: Get(r, k, "")
  }

  /** A row that has exactly the header's columns is written unchanged. */
  lemma ProjectExact(r: Row, fields: seq<string>)
    requires r.Keys == set k | k in fields
    ensures Project(r, fields) == r
  {
  }

  /** Keeps, in order, the images of the elements `f` accepts: the lossy read of a table. */
  function FilterMap<A, B>(s: seq<A>, f: A -> Option<B>): (r: seq<B>)
    ensures |r| <= |s|
  {
    if s == [] then []
    else
      FilterMap(s[..|s| - 1], f) + (match f(s[|s| - 1]) case Some(b) => [b] case None => [])
  }

  /** Reading two stretches of rows one after the other gives the two results one after the other. */
  lemma {:induction false} FilterMapAppend<A, B>(a: seq<A>, b: seq<A>, f: A -> Option<B>)
    ensures FilterMap(a + b, f) == FilterMap(a, f) + FilterMap(b, f)
  {
    if b == [] {
      assert a + b == a;
    } else {
      var b' := b[..|b| - 1];
      assert (a + b)[..|a + b| - 1] == a + b';
      assert (a + b)[|a + b| - 1] == b[|b| - 1];
      FilterMapAppend(a, b', f);
    }
  }

  /** A row that does not convert is dropped and changes nothing else. */
  lemma FilterMapSkips<A, B>(a: seq<A>, x: A, b: seq<A>, f: A -> Option<B>)
    requires f(x).None?
    ensures FilterMap(a + [x] + b, f) == FilterMap(a + b, f)
  {
    FilterMapAppend(a + [x], b, f);
    FilterMapAppend(a, [x], f);
    FilterMapAppend(a, b, f);
    assert [x][..0] == [];
  }

  /** A row that converts is kept, in its place. */
  lemma FilterMapKeeps<A, B>(a: seq<A>, x: A, b: seq<A>, f: A -> Option<B>)
    requires f(x).Some?
    ensures FilterMap(a + [x] + b, f) == FilterMap(a, f) + [f(x).value] + FilterMap(b, f)
  {
    FilterMapAppend(a + [x], b, f);
    FilterMapAppend(a, [x], f);
    assert [x][..0] == [];
  }

  /** When every row converts, every row is kept, each converted in place. */
  lemma {:induction false} FilterMapTotal<A, B>(s: seq<A>, f: A -> Option<B>)
    requires forall i :: 0 <= i < |s| ==> f(s[i]).Some?
    ensures |FilterMap(s, f)| == |s|
    ensures forall i :: 0 <= i < |s| ==> FilterMap(s, f)[i] == f(s[i]).value
  {
    if s != [] {
      FilterMapTotal(s[..|s| - 1], f);
    }
  }

  /** Every kept record is the conversion of some row. */
  lemma {:induction false} FilterMapSource<A, B>(s: seq<A>, f: A -> Option<B>, j: nat)
    requires j < |FilterMap(s, f)|
    ensures exists i :: 0 <= i < |s| && f(s[i]) == Some(FilterMap(s, f)[j])
  {
    var p := s[..|s| - 1];
    if j < |FilterMap(p, f)| {
      FilterMapSource(p, f, j);
      var i :| 0 <= i < |p| && f(p[i]) == Some(FilterMap(p, f)[j]);
      assert s[i] == p[i];
    } else {
      assert f(s[|s| - 1]) == Some(FilterMap(s, f)[j]);
    }
  }

  /** Rows that `dec` reads back as `xs`, one for one, are read back as `xs`. */
  lemma {:induction false} FilterMapInverts<A, B>(ys: seq<A>, xs: seq<B>, dec: A -> Option<B>)
    requires |ys| == |xs|
    requires forall i :: 0 <= i < |ys| ==> dec(ys[i]) == Some(xs[i])
    ensures FilterMap(ys, dec) == xs
  {
    if ys != [] {
      var n := |ys| - 1;
      assert forall i :: 0 <= i < n ==> ys[..n][i] == ys[i];
      FilterMapInverts(ys[..n], xs[..n], dec);
      assert xs == xs[..n] + [xs[n]];
    }
  }

  /** One CSV file and the environment's verdict on writing it. */
  class Table {
    var present: bool
    var rows: seq<Row>
    /** Whether creating, truncating or appending to the file succeeds. */
    var writable: bool

    ghost predicate Valid()
      reads this
    {
      !present ==> rows == []
    }

    constructor (present: bool, rows: seq<Row>, writable: bool)
      requires present || rows == []
      ensures Valid()
      ensures this.present == present && this.rows == rows && this.writable == writable
    {
      this.present := present;
      this.rows := rows;
      this.writable := writable;
    }

    /**
     * `_asegurar_archivo`: a missing file is created holding only the header;
     * an existing file is left as it is. False when the file is missing and
     * cannot be created.
     */
    method Ensure() returns (ok: bool)
      requires Valid()
      modifies this
      ensures Valid()
      ensures ok == (old(present) || writable) && present == ok
      ensures rows == old(rows) && writable == old(writable)
      ensures !old(present) && ok ==> rows == []
    {
      if present {
        return true;
      }
      ok := writable;
      if ok {
        present := true;
        rows := [];
      }
    }

    /** Opening the file with mode 'w', writing the header and then `newRows`. */
    method Overwrite(newRows: seq<Row>) returns (ok: bool)
      requires Valid()
      modifies this
      ensures Valid() && writable == old(writable)
      ensures ok == writable
      ensures ok ==> present && rows == newRows
      ensures !ok ==> present == old(present) && rows == old(rows)
    {
      ok := writable;
      if ok {
        present := true;
        rows := newRows;
      }
    }

    /** Opening the file with mode 'a' and writing `row` after the others. */
    method Append(row: Row) returns (ok: bool)
      requires Valid()
      modifies this
      ensures Valid() && writable == old(writable)
      ensures ok == writable
      ensures ok ==> present && rows == old(rows) + [row]
      ensures !ok ==> present == old(present) && rows == old(rows)
    {
      ok := writable;
      if ok {
        present := true;
        rows := rows + [row];
      }
    }
  }
}
