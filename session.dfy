/**
 * The key-driven annotation loop as a state machine over values.  One step
 * is one pass through the body of the `while` loop of `start_annotation`:
 * the current image is either unreadable (the cursor just moves on) or it is
 * shown and one key is read.
 */
module Session {
  import opened Ledger
  import opened Persist
  import opened Worklist

  /** The keys the loop distinguishes: `c`, `d`, `s`, `a`, `q` and any other. */
  datatype Key = Cat | Dog | Skip | Undo | Quit | Other

  /** What happens in one pass: the image cannot be read, or a key is pressed at time `now`. */
  datatype Event = Unreadable | Pressed(key: Key, now: string)

  datatype Session = Session(images: seq<string>, cursor: nat, store: Store)

  /**
   * One pass of the loop body at a cursor inside the worklist.  The second
   * component is true when the operator quits.
   */
  function Next(s: Session, e: Event): (r: (Session, bool))
    requires s.cursor < |s.images|
    ensures r.0.images == s.images && r.0.cursor <= |s.images|
    ensures e.Unreadable? ==> r.0.cursor == s.cursor + 1
  {
    var f := s.images[s.cursor];
    match e
    case Unreadable => (s.(cursor := s.cursor + 1), false)
    case Pressed(key, now) =>
      match key
      case Cat => (Session(s.images, s.cursor + 1, Saved(s.store, f, CatLabel, now)), false)
      case Dog => (Session(s.images, s.cursor + 1, Saved(s.store, f, DogLabel, now)), false)
      case Skip => (s.(cursor := s.cursor + 1), false)
      case Undo =>
        if s.cursor > 0 then
          (Session(s.images, s.cursor - 1, Deleted(s.store, s.images[s.cursor - 1])), false)
        else (s, false)
      case Quit => (s, true)
      case Other => (s, false)
  }

  /**
   * How each event moves the cursor: label, skip and an unreadable image
   * advance it by one, undo steps back only from a positive cursor, quit
   * and any other key leave the whole session as it was; the worklist never
   * changes and the cursor stays within it.
   */
  lemma CursorMoves(s: Session, e: Event)
    requires s.cursor < |s.images|
    ensures var (t, quit) := Next(s, e);
      && t.images == s.images
      && 0 <= t.cursor <= |s.images|
      && (e.Unreadable? || e.key in {Cat, Dog, Skip} ==> t.cursor == s.cursor + 1 && !quit)
      && (e.Pressed? && e.key == Undo ==> !quit && t.cursor == if s.cursor > 0 then s.cursor - 1 else 0)
      && (e.Pressed? && e.key == Undo && s.cursor == 0 ==> t == s)
      && (e.Pressed? && e.key in {Quit, Other} ==> t == s && (quit <==> e.key == Quit))
  {
  }

  // ---------------------------------------------------------------------
  // The invariant tying the cursor to the ledger and the buckets

  /** `f` has no ledger row and no bucket copy. */
  predicate Pending(st: Store, f: string)
  {
    f !in Names(Load(st.ledger)) && f !in st.cats && f !in st.dogs
  }

  /**
   * `f` has at most one row (none when it was skipped), and it has a copy in
   * a bucket exactly when that row says so.
   */
  predicate Decided(st: Store, f: string)
  {
    var rows := Load(st.ledger);
    CountRows(rows, f) <= 1
    && (f in st.cats <==> LabelOf(rows, f) == Some(CatLabel))
    && (f in st.dogs <==> LabelOf(rows, f) == Some(DogLabel))
  }

  /** `g` has the same rows and bucket copies in `st` as in `start`. */
  predicate Untouched(st: Store, start: Store, g: string)
  {
    CountRows(Load(st.ledger), g) == CountRows(Load(start.ledger), g)
    && LabelOf(Load(st.ledger), g) == LabelOf(Load(start.ledger), g)
    && (g in st.cats <==> g in start.cats)
    && (g in st.dogs <==> g in start.dogs)
  }

  /**
   * The session invariant, relative to the store the session started from:
   * worklist items at or after the cursor are pending, items before it are
   * decided, and files outside the worklist are untouched.
   */
  ghost predicate Coherent(s: Session, start: Store)
  {
    && s.cursor <= |s.images|
    && Distinct(s.images)
    && (forall i :: s.cursor <= i < |s.images| ==> Pending(s.store, s.images[i]))
    && (forall i :: 0 <= i < s.cursor ==> Decided(s.store, s.images[i]))
    && (forall g :: g !in s.images ==> Untouched(s.store, start, g))
  }

  /** A session starting at 0 on distinct items that have no rows and no copies is coherent. */
  lemma StartIsCoherent(images: seq<string>, start: Store)
    requires Distinct(images)
    requires forall f :: f in images ==> Pending(start, f)
    ensures Coherent(Session(images, 0, start), start)
  {
  }

  /** A pending item counts as decided (skipped). */
  lemma PendingIsDecided(st: Store, f: string)
    requires Pending(st, f)
    ensures Decided(st, f)
  {
  }

  /** Saving the row of the item under the cursor and advancing keeps the session coherent. */
  lemma SaveKeepsCoherent(s: Session, start: Store, category: string, now: string)
    requires s.cursor < |s.images| && Coherent(s, start)
    ensures Coherent(Session(s.images, s.cursor + 1, Saved(s.store, s.images[s.cursor], category, now)), start)
  {
    var f := s.images[s.cursor];
    var st := Saved(s.store, f, category, now);
    var t := Session(s.images, s.cursor + 1, st);
    forall i | t.cursor <= i < |t.images|
      ensures Pending(st, t.images[i])
    {
      assert s.images[i] != f;
      assert Pending(s.store, s.images[i]);
    }
    forall i | 0 <= i < t.cursor
      ensures Decided(st, t.images[i])
    {
      if i < s.cursor {
        assert s.images[i] != f;
        assert Decided(s.store, s.images[i]);
      } else {
        assert Pending(s.store, f);
      }
    }
    forall g | g !in t.images
      ensures Untouched(st, start, g)
    {
      assert g != f;
      assert Untouched(s.store, start, g);
    }
  }

  /** Stepping back and deleting the item now under the cursor keeps the session coherent. */
  lemma DeleteKeepsCoherent(s: Session, start: Store)
    requires 0 < s.cursor <= |s.images| && Coherent(s, start)
    ensures Coherent(Session(s.images, s.cursor - 1, Deleted(s.store, s.images[s.cursor - 1])), start)
  {
    var p := s.images[s.cursor - 1];
    var st := Deleted(s.store, p);
    var t := Session(s.images, s.cursor - 1, st);
    assert Decided(s.store, p);
    DogRowTargetsDogs();
    assert Pending(st, p);
    forall i | t.cursor <= i < |t.images|
      ensures Pending(st, t.images[i])
    {
      if i > t.cursor {
        assert s.images[i] != p;
        DeleteKeepsPending(s.store, p, s.images[i]);
      }
    }
    forall i | 0 <= i < t.cursor
      ensures Decided(st, t.images[i])
    {
      assert s.images[i] != p;
      assert Decided(s.store, s.images[i]);
    }
    forall g | g !in t.images
      ensures Untouched(st, start, g)
    {
      assert g != p;
      assert Untouched(s.store, start, g);
    }
  }

  /** Deleting the rows of one file leaves every other pending file pending. */
  lemma DeleteKeepsPending(st: Store, f: string, g: string)
    requires g != f && Pending(st, g)
    ensures Pending(Deleted(st, f), g)
  {
    var r := Deleted(st, f);
    assert CountRows(Load(r.ledger), g) == CountRows(Load(st.ledger), g);
  }

  /** Passing over the item under the cursor without writing keeps the session coherent. */
  lemma PassKeepsCoherent(s: Session, start: Store)
    requires s.cursor < |s.images| && Coherent(s, start)
    ensures Coherent(s.(cursor := s.cursor + 1), start)
  {
    var t := s.(cursor := s.cursor + 1);
    forall i | 0 <= i < t.cursor
      ensures Decided(t.store, t.images[i])
    {
      if i == s.cursor {
        PendingIsDecided(s.store, s.images[i]);
      }
    }
  }

  /** A label key keeps the session coherent. */
  lemma LabelKeyKeepsCoherent(s: Session, start: Store, e: Event)
    requires s.cursor < |s.images| && Coherent(s, start)
    requires e.Pressed? && e.key in {Cat, Dog}
    ensures Coherent(Next(s, e).0, start)
  {
    var category := if e.key == Cat then CatLabel else DogLabel;
    assert Next(s, e).0 == Session(s.images, s.cursor + 1, Saved(s.store, s.images[s.cursor], category, e.now));
    SaveKeepsCoherent(s, start, category, e.now);
  }

  /** The undo key keeps the session coherent. */
  lemma UndoKeyKeepsCoherent(s: Session, start: Store, e: Event)
    requires s.cursor < |s.images| && Coherent(s, start)
    requires e.Pressed? && e.key == Undo
    ensures Coherent(Next(s, e).0, start)
  {
    if s.cursor > 0 {
      assert Next(s, e).0 == Session(s.images, s.cursor - 1, Deleted(s.store, s.images[s.cursor - 1]));
      DeleteKeepsCoherent(s, start);
    } else {
      assert Next(s, e).0 == s;
    }
  }

  /** Every pass of the loop keeps the session coherent. */
  lemma NextKeepsCoherent(s: Session, start: Store, e: Event)
    requires s.cursor < |s.images| && Coherent(s, start)
    ensures Coherent(Next(s, e).0, start)
  {
    if e.Unreadable? || e.key == Skip {
      assert Next(s, e).0 == s.(cursor := s.cursor + 1);
      PassKeepsCoherent(s, start);
    } else if e.key in {Cat, Dog} {
      LabelKeyKeepsCoherent(s, start, e);
    } else if e.key == Undo {
      UndoKeyKeepsCoherent(s, start, e);
    } else {
      assert Next(s, e).0 == s;
    }
  }

  // ---------------------------------------------------------------------
  // Undo as a round trip

  /**
   * Labelling the current item and then undoing puts back the ledger, both
   * buckets and the cursor; only a ledger file holding just its header does
   * not come back, because the rewrite that empties it removes it.
   */
  lemma LabelThenUndo(s: Session, key: Key, now: string, later: string)
    requires s.cursor + 1 < |s.images| && key in {Cat, Dog}
    requires Pending(s.store, s.images[s.cursor])
    ensures var t := Next(s, Pressed(key, now)).0;
      Next(t, Pressed(Undo, later))
        == (if s.store.ledger == Some([]) then s.(store := s.store.(ledger := None)) else s, false)
  {
    var f := s.images[s.cursor];
    var category := if key == Cat then CatLabel else DogLabel;
    var t := Session(s.images, s.cursor + 1, Saved(s.store, f, category, now));
    assert Next(s, Pressed(key, now)) == (t, false);
    assert Next(t, Pressed(Undo, later)) == (Session(s.images, s.cursor, Deleted(t.store, f)), false);
    DeleteUndoesSave(s.store, f, category, now);
  }

  /**
   * Skipping the current item, or passing an unreadable one, and then
   * undoing writes nothing: the store and cursor are as before, apart from
   * the removal of a header-only ledger file.
   */
  lemma PassThenUndo(s: Session, e: Event, later: string)
    requires s.cursor + 1 < |s.images| && (e.Unreadable? || e.key == Skip)
    requires s.images[s.cursor] !in Names(Load(s.store.ledger))
    ensures var t := Next(s, e).0;
      Next(t, Pressed(Undo, later))
        == (if s.store.ledger == Some([]) then s.(store := s.store.(ledger := None)) else s, false)
  {
    var f := s.images[s.cursor];
    var t := s.(cursor := s.cursor + 1);
    assert Next(s, e).0 == t;
    assert Next(t, Pressed(Undo, later)) == (Session(s.images, s.cursor, Deleted(s.store, f)), false);
    DeleteAbsentKeepsStore(s.store, f);
  }

  // ---------------------------------------------------------------------
  // The whole loop

  /** The key presses of a session, each with the clock reading at that moment. */
  datatype Press = Press(key: Key, now: string)

  /**
   * The loop from session `s`: it stops when the cursor reaches the end of
   * the worklist, when the operator quits, or when no key press is left (the
   * real loop would wait); an unreadable image uses up no key press.
   */
  function Run(s: Session, presses: seq<Press>, unreadable: set<string>): (r: Session)
    requires s.cursor <= |s.images|
    ensures r.images == s.images && r.cursor <= |s.images|
    decreases |presses|, |s.images| - s.cursor
  {
    if s.cursor == |s.images| then s
    else if s.images[s.cursor] in unreadable then Run(Next(s, Unreadable).0, presses, unreadable)
    else if presses == [] then s
    else
      var (t, quit) := Next(s, Pressed(presses[0].key, presses[0].now));
      if quit then t else Run(t, presses[1..], unreadable)
  }

  /** The whole loop keeps the session coherent. */
  lemma {:induction false} RunKeepsCoherent(s: Session, start: Store, presses: seq<Press>, unreadable: set<string>)
    requires Coherent(s, start)
    ensures Coherent(Run(s, presses, unreadable), start)
    decreases |presses|, |s.images| - s.cursor
  {
    if s.cursor == |s.images| {
    } else if s.images[s.cursor] in unreadable {
      NextKeepsCoherent(s, start, Unreadable);
      RunKeepsCoherent(Next(s, Unreadable).0, start, presses, unreadable);
    } else if presses != [] {
      var e := Pressed(presses[0].key, presses[0].now);
      NextKeepsCoherent(s, start, e);
      var (t, quit) := Next(s, e);
      if !quit {
        RunKeepsCoherent(t, start, presses[1..], unreadable);
      }
    }
  }

  /** The two labels differ, and so do the first two filenames of the example below. */
  lemma ScenarioNamesDiffer()
    ensures CatLabel != DogLabel && "a.jpg" != "b.jpg"
  {
    assert CatLabel[0] != DogLabel[0];
    assert "a.jpg"[0] != "b.jpg"[0];
  }

  lemma ScenarioSave(st: Store, rows: seq<Row>, f: string, category: string, now: string)
    requires st.ledger == Some(rows) || (st.ledger.None? && rows == [])
    ensures Saved(st, f, category, now).ledger == Some(rows + [Row(f, category, now)])
  {
  }

  /** The first save of the example below: `a` as a cat into a store with no ledger. */
  lemma ScenarioSaveFirst()
    ensures Saved(Store(None, {}, {}), "a.jpg", CatLabel, "t1") == Store(Some([Row("a.jpg", CatLabel, "t1")]), {"a.jpg"}, {})
  {
    var a := Row("a.jpg", CatLabel, "t1");
    ScenarioSave(Store(None, {}, {}), [], "a.jpg", CatLabel, "t1");
    assert [] + [a] == [a];
  }

  /** The second save of the example below: `b`, under `category`, after `a`. */
  lemma ScenarioSaveSecond(category: string, now: string)
    requires category in {CatLabel, DogLabel}
    ensures var a := Row("a.jpg", CatLabel, "t1");
      Saved(Store(Some([a]), {"a.jpg"}, {}), "b.jpg", category, now)
      == if category == CatLabel then Store(Some([a, Row("b.jpg", category, now)]), {"a.jpg", "b.jpg"}, {})
         else Store(Some([a, Row("b.jpg", category, now)]), {"a.jpg"}, {"b.jpg"})
  {
    ScenarioNamesDiffer();
    var a := Row("a.jpg", CatLabel, "t1");
    ScenarioSave(Store(Some([a]), {"a.jpg"}, {}), [a], "b.jpg", category, now);
    assert [a] + [Row("b.jpg", category, now)] == [a, Row("b.jpg", category, now)];
  }

  /** The undo of the example below: deleting `b`'s dog row gives back the store after the first save. */
  lemma ScenarioDelete()
    ensures var a := Row("a.jpg", CatLabel, "t1");
      Deleted(Store(Some([a, Row("b.jpg", DogLabel, "t2")]), {"a.jpg"}, {"b.jpg"}), "b.jpg") == Store(Some([a]), {"a.jpg"}, {})
  {
    ScenarioNamesDiffer();
    DogRowTargetsDogs();
    var a := Row("a.jpg", CatLabel, "t1");
    var bDog := Row("b.jpg", DogLabel, "t2");
    assert [a, bDog] == [a] + [bDog];
    assert Without([a, bDog], "b.jpg") == [a];
    assert LabelOf([a, bDog], "b.jpg") == Some(DogLabel);
  }

  /**
   * Worklist [a, b, c], fresh ledger and empty buckets; the operator presses
   * c, d, a, c, q: the ledger ends with a:cat and b:cat, the cats bucket holds
   * a and b, the dogs bucket is empty, and the cursor rests on c.
   */
  lemma ScenarioCatDogUndoCatQuit()
    ensures var s := Run(Session(["a.jpg", "b.jpg", "c.jpg"], 0, Store(None, {}, {})),
                         [Press(Cat, "t1"), Press(Dog, "t2"), Press(Undo, "t3"), Press(Cat, "t4"), Press(Quit, "t5")],
                         {});
      && s.cursor == 2
      && s.store == Store(Some([Row("a.jpg", CatLabel, "t1"), Row("b.jpg", CatLabel, "t4")]), {"a.jpg", "b.jpg"}, {})
  {
    var images := ["a.jpg", "b.jpg", "c.jpg"];
    var ps := [Press(Cat, "t1"), Press(Dog, "t2"), Press(Undo, "t3"), Press(Cat, "t4"), Press(Quit, "t5")];
    var a := Row("a.jpg", CatLabel, "t1");
    var bDog := Row("b.jpg", DogLabel, "t2");
    var bCat := Row("b.jpg", CatLabel, "t4");
    var st1 := Store(Some([a]), {"a.jpg"}, {});
    var st2 := Store(Some([a, bDog]), {"a.jpg"}, {"b.jpg"});
    var st4 := Store(Some([a, bCat]), {"a.jpg", "b.jpg"}, {});
    ScenarioSaveFirst();
    ScenarioSaveSecond(DogLabel, "t2");
    ScenarioSaveSecond(CatLabel, "t4");
    ScenarioDelete();
    var s1 := Session(images, 1, st1);
    var s2 := Session(images, 2, st2);
    var s4 := Session(images, 2, st4);
    var s0 := Session(images, 0, Store(None, {}, {}));
    assert Next(s4, Pressed(Quit, "t5")) == (s4, true);
    assert Run(s4, ps[4..], {}) == s4;
    assert Next(s1, Pressed(Cat, "t4")) == (s4, false);
    assert Run(s1, ps[3..], {}) == s4;
    assert Next(s2, Pressed(Undo, "t3")) == (s1, false);
    assert Run(s2, ps[2..], {}) == s4;
    assert Next(s1, Pressed(Dog, "t2")) == (s2, false);
    assert Run(s1, ps[1..], {}) == s4;
    assert Next(s0, Pressed(Cat, "t1")) == (s1, false);
  }
}
