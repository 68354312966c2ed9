/**
 * The labels ledger shared by the annotation tool and the data-preparation
 * tool: a CSV file whose header is `filename,label,timestamp` and whose data
 * lines are rows of that shape.  The file is modelled as a value: `None` when
 * it does not exist on disk, `Some(rows)` otherwise (the header is implied).
 *
 * The row functions are defined on "prefix + last row", the order in which
 * the tools read the file, so that a loop over the rows unfolds them directly.
 */
module Ledger {

  datatype Option<+T> = None | Some(value: T)

  /** One data line of the ledger; the CSV column `label` is the field `category`. */
  datatype Row = Row(filename: string, category: string, timestamp: string)

  /** The ledger file: `None` when no file exists. */
  type LedgerFile = Option<seq<Row>>

  const CatLabel: string := "cat"
  const DogLabel: string := "dog"

  /** The rows of the ledger; a missing file reads as no rows. */
  function Load(file: LedgerFile): (rows: seq<Row>)
    ensures file.None? ==> rows == []
    ensures file.Some? ==> rows == file.value
  {
    if file.Some? then file.value else []
  }

  /** The filenames that have at least one row: every row's, and no other. */
  function Names(rows: seq<Row>): set<string>
  {
    set r | r in rows :: r.filename
  }

  /** A filename has a row exactly when some index of the ledger holds a row for it. */
  lemma NamesMembership(rows: seq<Row>, f: string)
    ensures f in Names(rows) <==> exists i :: 0 <= i < |rows| && rows[i].filename == f
  {
    if f in Names(rows) {
      var r :| r in rows && r.filename == f;
      var i :| 0 <= i < |rows| && rows[i] == r;
    }
    if exists i :: 0 <= i < |rows| && rows[i].filename == f {
      var i :| 0 <= i < |rows| && rows[i].filename == f;
      assert rows[i] in rows;
    }
  }

  lemma NamesAppend(rows: seq<Row>, x: Row)
    ensures Names(rows + [x]) == Names(rows) + {x.filename}
  {
    assert forall r :: r in rows + [x] <==> r in rows || r == x;
  }

  /** The number of rows whose filename is `f`. */
  function CountRows(rows: seq<Row>, f: string): (n: nat)
    ensures n == 0 <==> f !in Names(rows)
    ensures n <= |rows|
  {
    if rows == [] then 0
    else
      var init, last := rows[..|rows| - 1], rows[|rows| - 1];
      assert rows == init + [last];
      NamesAppend(init, last);
      CountRows(init, f) + (if last.filename == f then 1 else 0)
  }

  /**
   * The label of the LAST row whose filename is `f`, or `None` when there is
   * no such row (a forward scan that overwrites the label on every match).
   */
  function LabelOf(rows: seq<Row>, f: string): (r: Option<string>)
    ensures r.None? <==> f !in Names(rows)
  {
    if rows == [] then None
    else
      var init, last := rows[..|rows| - 1], rows[|rows| - 1];
      assert rows == init + [last];
      NamesAppend(init, last);
      if last.filename == f then Some(last.category) else LabelOf(init, f)
  }

  /**
   * A remembered label is the label of a row of the file that no later row
   * of the file follows.
   */
  lemma {:induction false} LabelOfIsLastRow(rows: seq<Row>, f: string)
    ensures LabelOf(rows, f).Some? ==>
      exists i :: 0 <= i < |rows| && rows[i].filename == f && rows[i].category == LabelOf(rows, f).value
                  && forall j :: i < j < |rows| ==> rows[j].filename != f
    decreases |rows|
  {
    if rows != [] {
      var init, last := rows[..|rows| - 1], rows[|rows| - 1];
      assert rows == init + [last];
      if last.filename == f {
        assert rows[|rows| - 1].filename == f;
      } else if LabelOf(init, f).Some? {
        LabelOfIsLastRow(init, f);
        var i :| 0 <= i < |init| && init[i].filename == f && init[i].category == LabelOf(init, f).value
                 && forall j :: i < j < |init| ==> init[j].filename != f;
        assert rows[i] == init[i];
        forall j | i < j < |rows|
          ensures rows[j].filename != f
        {
          if j < |init| {
            assert rows[j] == init[j];
          }
        }
      }
    }
  }

  lemma CountRowsAppend(rows: seq<Row>, x: Row, g: string)
    ensures CountRows(rows + [x], g) == CountRows(rows, g) + (if x.filename == g then 1 else 0)
    ensures LabelOf(rows + [x], g) == if x.filename == g then Some(x.category) else LabelOf(rows, g)
  {
    assert (rows + [x])[..|rows|] == rows;
  }

  /** The rows whose filename is not `f`, in their original order. */
  function Without(rows: seq<Row>, f: string): (r: seq<Row>)
    ensures f !in Names(r)
    ensures |r| == |rows| - CountRows(rows, f)
    ensures forall g :: g != f ==> CountRows(r, g) == CountRows(rows, g) && LabelOf(r, g) == LabelOf(rows, g)
    ensures f !in Names(rows) ==> r == rows
  {
    if rows == [] then []
    else
      var init, last := rows[..|rows| - 1], rows[|rows| - 1];
      assert rows == init + [last];
      NamesAppend(init, last);
      var w := Without(init, f);
      if last.filename == f then w
      else
        NamesAppend(w, last);
        forall g | g != f
          ensures CountRows(w + [last], g) == CountRows(rows, g)
          ensures LabelOf(w + [last], g) == LabelOf(rows, g)
        {
          CountRowsAppend(w, last, g);
          CountRowsAppend(init, last, g);
        }
        w + [last]
  }

  /** Dropping a file's rows keeps every copy of every other file's row, and no row of the file. */
  lemma {:induction false} WithoutMultiplicity(rows: seq<Row>, f: string, x: Row)
    ensures multiset(Without(rows, f))[x] == if x.filename == f then 0 else multiset(rows)[x]
    decreases |rows|
  {
    if rows != [] {
      var init, last := rows[..|rows| - 1], rows[|rows| - 1];
      assert rows == init + [last];
      WithoutMultiplicity(init, f, x);
      WithoutAppend(init, last, f);
    }
  }

  /** A single row is kept exactly when it belongs to another file. */
  lemma WithoutSingle(x: Row, f: string)
    ensures Without([x], f) == if x.filename == f then [] else [x]
  {
    assert [x][..0] == [];
  }

  /**
   * Dropping a file's rows works stretch by stretch: the rows kept from two
   * stretches are those kept from the first followed by those kept from the
   * second.  With `WithoutSingle`, the kept rows are the other files' rows,
   * unchanged and in their order.
   */
  lemma {:induction false} WithoutConcat(a: seq<Row>, b: seq<Row>, f: string)
    ensures Without(a + b, f) == Without(a, f) + Without(b, f)
    decreases |b|
  {
    if b == [] {
      assert a + b == a;
    } else {
      var init, last := b[..|b| - 1], b[|b| - 1];
      assert b == init + [last];
      assert a + b == (a + init) + [last];
      WithoutConcat(a, init, f);
      WithoutAppend(a + init, last, f);
      WithoutAppend(init, last, f);
      var wa, wi := Without(a, f), Without(init, f);
      assert Without(a + init, f) == wa + wi;
      if last.filename == f {
        assert Without(a + b, f) == wa + wi;
        assert Without(b, f) == wi;
      } else {
        assert Without(a + b, f) == (wa + wi) + [last];
        assert Without(b, f) == wi + [last];
        ConcatAppend(wa, wi, last);
      }
    }
  }

  lemma ConcatAppend(x: seq<Row>, y: seq<Row>, z: Row)
    ensures x + (y + [z]) == (x + y) + [z]
  {
  }

  lemma WithoutAppend(rows: seq<Row>, x: Row, f: string)
    ensures Without(rows + [x], f) == if x.filename == f then Without(rows, f) else Without(rows, f) + [x]
  {
    assert (rows + [x])[..|rows|] == rows;
  }

  /** One more row of a forward scan: how the row functions grow. */
  lemma ScanStep(rows: seq<Row>, i: nat, f: string)
    requires i < |rows|
    ensures Without(rows[..i + 1], f)
         == if rows[i].filename == f then Without(rows[..i], f) else Without(rows[..i], f) + [rows[i]]
    ensures LabelOf(rows[..i + 1], f)
         == if rows[i].filename == f then Some(rows[i].category) else LabelOf(rows[..i], f)
  {
    assert rows[..i + 1][..i] == rows[..i];
  }

  /** The rows whose label is `l`, in their original order. */
  function WithLabel(rows: seq<Row>, l: string): (r: seq<Row>)
    ensures forall x :: x in r <==> x in rows && x.category == l
    ensures |r| <= |rows|
  {
    if rows == [] then []
    else
      var init, last := rows[..|rows| - 1], rows[|rows| - 1];
      assert rows == init + [last];
      if last.category == l then WithLabel(init, l) + [last] else WithLabel(init, l)
  }

  lemma WithLabelAppend(rows: seq<Row>, x: Row, l: string)
    ensures WithLabel(rows + [x], l) == if x.category == l then WithLabel(rows, l) + [x] else WithLabel(rows, l)
  {
    assert (rows + [x])[..|rows|] == rows;
  }

  /**
   * The number of rows carrying label `l`, counted the way a forward scan
   * counts: the size of `WithLabel`.
   */
  function CountLabel(rows: seq<Row>, l: string): (n: nat)
    ensures n == |WithLabel(rows, l)|
  {
    if rows == [] then 0
    else CountLabel(rows[..|rows| - 1], l) + (if rows[|rows| - 1].category == l then 1 else 0)
  }

  lemma CountLabelStep(rows: seq<Row>, i: nat, l: string)
    requires i < |rows|
    ensures CountLabel(rows[..i + 1], l) == CountLabel(rows[..i], l) + (if rows[i].category == l then 1 else 0)
  {
    assert rows[..i + 1][..i] == rows[..i];
  }

  lemma {:induction false} WithLabelConcat(a: seq<Row>, b: seq<Row>, l: string)
    ensures WithLabel(a + b, l) == WithLabel(a, l) + WithLabel(b, l)
    decreases |b|
  {
    if b == [] {
      assert a + b == a;
    } else {
      var init, last := b[..|b| - 1], b[|b| - 1];
      assert b == init + [last];
      assert a + b == (a + init) + [last];
      WithLabelConcat(a, init, l);
      WithLabelAppend(a + init, last, l);
      WithLabelAppend(init, last, l);
      if last.category == l {
        var wa, wi := WithLabel(a, l), WithLabel(init, l);
        ConcatAppend(wa, wi, last);
      }
    }
  }

  /**
   * Filtering by label keeps every copy of a row that carries the label and
   * no copy of any other row.
   */
  lemma {:induction false} WithLabelMultiplicity(rows: seq<Row>, l: string, x: Row)
    ensures multiset(WithLabel(rows, l))[x] == if x.category == l then multiset(rows)[x] else 0
    decreases |rows|
  {
    if rows != [] {
      var init, last := rows[..|rows| - 1], rows[|rows| - 1];
      assert rows == init + [last];
      WithLabelMultiplicity(init, l, x);
      WithLabelAppend(init, last, l);
    }
  }

  /** Reordering the rows reorders, and so keeps the size of, each label's rows. */
  lemma WithLabelPermutation(a: seq<Row>, b: seq<Row>, l: string)
    requires multiset(a) == multiset(b)
    ensures multiset(WithLabel(a, l)) == multiset(WithLabel(b, l))
    ensures |WithLabel(a, l)| == |WithLabel(b, l)|
  {
    forall x
      ensures multiset(WithLabel(a, l))[x] == multiset(WithLabel(b, l))[x]
    {
      WithLabelMultiplicity(a, l, x);
      WithLabelMultiplicity(b, l, x);
    }
    assert multiset(WithLabel(a, l)) == multiset(WithLabel(b, l));
    assert |multiset(WithLabel(a, l))| == |WithLabel(a, l)|;
    assert |multiset(WithLabel(b, l))| == |WithLabel(b, l)|;
  }
}
