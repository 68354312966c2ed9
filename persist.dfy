/**
 * What one labelling decision writes and what an undo erases: the ledger
 * file and the two bucket directories (the copies of labelled images under
 * `data/cats` and `data/dogs`), each bucket modelled as the set of filenames
 * it holds.
 */
module Persist {
  import opened Ledger

  datatype Store = Store(ledger: LedgerFile, cats: set<string>, dogs: set<string>)

  /**
   * `save_annotation`: append the row (creating the file, header first, when
   * it is missing) and copy the image into the bucket of a `cat` or `dog`
   * label; any other label is recorded without a copy.
   */
  function Saved(st: Store, f: string, category: string, now: string): (r: Store)
    ensures r.ledger.Some?
    ensures |Load(r.ledger)| == |Load(st.ledger)| + 1
    ensures Load(r.ledger)[..|Load(st.ledger)|] == Load(st.ledger)
    ensures Load(r.ledger)[|Load(st.ledger)|] == Row(f, category, now)
    ensures Names(Load(r.ledger)) == Names(Load(st.ledger)) + {f}
    ensures CountRows(Load(r.ledger), f) == CountRows(Load(st.ledger), f) + 1
    ensures LabelOf(Load(r.ledger), f) == Some(category)
    ensures forall g :: g != f ==> (CountRows(Load(r.ledger), g) == CountRows(Load(st.ledger), g)
                                   && LabelOf(Load(r.ledger), g) == LabelOf(Load(st.ledger), g))
    ensures forall g :: g in r.cats <==> g in st.cats || (g == f && category == CatLabel)
    ensures forall g :: g in r.dogs <==> g in st.dogs || (g == f && category == DogLabel)
  {
    var rows := Load(st.ledger);
    var row := Row(f, category, now);
    NamesAppend(rows, row);
    CountRowsAppend(rows, row, f);
    assert forall g :: CountRows(rows + [row], g) == CountRows(rows, g) + (if f == g then 1 else 0)
                    && LabelOf(rows + [row], g) == (if f == g then Some(category) else LabelOf(rows, g)) by {
      forall g {
        CountRowsAppend(rows, row, g);
      }
    }
    Store(Some(rows + [row]),
          if category == CatLabel then st.cats + {f} else st.cats,
          if category == DogLabel then st.dogs + {f} else st.dogs)
  }

  /** Whether removing a row with this label removes a copy from the dogs bucket. */
  predicate TargetsDogs(deleted: Option<string>)
  {
    deleted.Some? && deleted.value != "" && deleted.value != CatLabel
  }

  /** Removing a `dog` row removes the copy from the dogs bucket; removing a `cat` row does not. */
  lemma DogRowTargetsDogs()
    ensures TargetsDogs(Some(DogLabel)) && !TargetsDogs(Some(CatLabel))
  {
    assert DogLabel[0] != CatLabel[0];
    assert DogLabel != "" by {
      assert |DogLabel| == 3;
    }
  }

  /**
   * The bucket copy removed after rows are dropped: none for a missing or
   * empty label, the cats bucket for `cat`, the dogs bucket for anything else.
   */
  function Removed(st: Store, f: string, deleted: Option<string>): (r: Store)
    ensures r.ledger == st.ledger
    ensures forall g :: g != f ==> ((g in r.cats <==> g in st.cats) && (g in r.dogs <==> g in st.dogs))
    ensures f in r.cats <==> f in st.cats && deleted != Some(CatLabel)
    ensures f in r.dogs <==> f in st.dogs && !TargetsDogs(deleted)
  {
    if deleted.None? || deleted.value == "" then st
    else if deleted.value == CatLabel then st.(cats := st.cats - {f})
    else st.(dogs := st.dogs - {f})
  }

  /**
   * `delete_annotation`: nothing happens when there is no ledger file;
   * otherwise every row of `f` is dropped, the file is rewritten with the
   * rest (or removed when nothing is left), and the copy is removed from the
   * bucket named by the label of the last dropped row.
   */
  function Deleted(st: Store, f: string): (r: Store)
    ensures st.ledger.None? ==> r == st
    ensures Load(r.ledger) == Without(Load(st.ledger), f)
    ensures r.ledger.None? <==> st.ledger.None? || Without(Load(st.ledger), f) == []
    ensures f !in Names(Load(r.ledger))
    ensures forall g :: g != f ==> (CountRows(Load(r.ledger), g) == CountRows(Load(st.ledger), g)
                                   && LabelOf(Load(r.ledger), g) == LabelOf(Load(st.ledger), g))
    ensures forall g :: g != f ==> ((g in r.cats <==> g in st.cats) && (g in r.dogs <==> g in st.dogs))
    ensures f in r.cats <==> f in st.cats && LabelOf(Load(st.ledger), f) != Some(CatLabel)
    ensures f in r.dogs <==> f in st.dogs && !TargetsDogs(LabelOf(Load(st.ledger), f))
  {
    if st.ledger.None? then st
    else
      var rows := st.ledger.value;
      var rest := Without(rows, f);
      var file := if rest == [] then None else Some(rest);
      assert Load(file) == rest;
      Removed(Store(file, st.cats, st.dogs), f, LabelOf(rows, f))
  }

  /**
   * Deleting a file's rows right after saving its only row gives back the
   * store as it was, buckets included, for any label and timestamp, provided
   * the file had no row and no bucket copy before.  The one difference: a
   * ledger file that held only its header is removed, since the rewrite
   * leaves no rows.
   */
  lemma DeleteUndoesSave(st: Store, f: string, category: string, now: string)
    requires f !in Names(Load(st.ledger)) && f !in st.cats && f !in st.dogs
    ensures Deleted(Saved(st, f, category, now), f)
         == if st.ledger == Some([]) then st.(ledger := None) else st
  {
    var rows := Load(st.ledger);
    var row := Row(f, category, now);
    var saved := Saved(st, f, category, now);
    assert Load(saved.ledger) == rows + [row];
    assert Without(rows + [row], f) == Without(rows, f) == rows by {
      assert (rows + [row])[..|rows|] == rows;
    }
  }

  /**
   * Deleting a file that has no row erases nothing: the buckets stay and the
   * rows are rewritten as they were, except that a header-only ledger file
   * is removed.
   */
  lemma DeleteAbsentKeepsStore(st: Store, f: string)
    requires f !in Names(Load(st.ledger))
    ensures Deleted(st, f) == if st.ledger == Some([]) then st.(ledger := None) else st
  {
  }
}
