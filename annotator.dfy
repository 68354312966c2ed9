/**
 * `SimpleAnnotator`: the annotation tool's object.  Its fields are the
 * worklist, the cursor, and the files it writes to, held as values: the
 * ledger file and the two bucket directories.  Each method is proved against
 * the value-level definitions of the `Worklist`, `Persist` and `Session`
 * modules.
 */
module Annotate {
  import opened Ledger
  import opened Worklist
  import opened Persist
  import opened Session

  /** The totals printed by `show_stats`. */
  datatype Counts = Counts(cats: nat, dogs: nat)

  class Annotator {
    var images: seq<string>
    var cursor: nat
    var ledger: LedgerFile
    var cats: set<string>
    var dogs: set<string>
    /** The ledger and buckets as they were when the tool started. */
    ghost var origin: Store

    function State(): Session
      reads this
    {
      Session(images, cursor, Store(ledger, cats, dogs))
    }

    /**
     * `__init__`: the buckets are the existing directory contents, the
     * worklist is built from the directory listing `listing`, and the rows
     * of an existing ledger are filtered out unless reading it fails.
     */
    constructor (listing: seq<string>, file: LedgerFile, readFails: bool, catsDir: set<string>, dogsDir: set<string>)
      ensures StrictlySorted(images)
      ensures forall n :: n in images <==>
                n in listing && IsImageName(n) && (file.None? || readFails || n !in Names(file.value))
      ensures cursor == 0 && ledger == file && cats == catsDir && dogs == dogsDir
      ensures origin == Store(file, catsDir, dogsDir)
      ensures (file.None? || !readFails) && (forall n :: n in images ==> n !in catsDir && n !in dogsDir)
              ==> Coherent(State(), origin)
    {
      images := [];
      cursor := 0;
      ledger := file;
      cats := catsDir;
      dogs := dogsDir;
      origin := Store(file, catsDir, dogsDir);
      new;
      LoadImages(listing);
      LoadExistingLabels(readFails);
      SortedIsDistinct(images);
    }

    /**
     * `load_images`: extend the worklist with the names each extension's
     * glob matches, then keep one copy of each name, in ascending order.
     */
    method LoadImages(listing: seq<string>)
      modifies this`images
      ensures StrictlySorted(images)
      ensures forall n :: n in images <==> n in old(images) || (n in listing && IsImageName(n))
    {
      var found := images;
      for k := 0 to |Extensions|
        invariant forall n :: n in found <==> n in old(images) || (n in listing && MatchesAny(n, Extensions[..k]))
      {
        assert Extensions[..k + 1] == Extensions[..k] + [Extensions[k]];
        found := found + Matching(listing, Extensions[k]);
      }
      assert Extensions[..|Extensions|] == Extensions;
      // list(set(found)) followed by sort()
      var sorted := [];
      for i := 0 to |found|
        invariant StrictlySorted(sorted)
        invariant forall n :: n in sorted <==> n in found[..i]
      {
        assert found[..i + 1] == found[..i] + [found[i]];
        sorted := Insert(sorted, found[i]);
      }
      assert found[..|found|] == found;
      images := sorted;
    }

    /**
     * `load_existing_labels`: when the ledger file exists and can be read,
     * drop every image that has a row; when reading fails the worklist is
     * left as it is.
     */
    method LoadExistingLabels(readFails: bool)
      modifies this`images
      ensures images == if ledger.Some? && !readFails then Unlabelled(old(images), Names(ledger.value)) else old(images)
      ensures forall n :: n in images <==> n in old(images) && (ledger.None? || readFails || n !in Names(ledger.value))
      ensures StrictlySorted(old(images)) ==> StrictlySorted(images)
    {
      if ledger.Some? && !readFails {
        images := Unlabelled(images, Names(ledger.value));
      }
    }

    /** `save_annotation`. */
    method SaveAnnotation(f: string, category: string, now: string)
      modifies this`ledger, this`cats, this`dogs
      ensures Store(ledger, cats, dogs) == Saved(old(Store(ledger, cats, dogs)), f, category, now)
    {
      // The header line is written first when the file does not exist yet.
      var rows := if ledger.Some? then ledger.value else [];
      ledger := Some(rows + [Row(f, category, now)]);
      if category == CatLabel {
        cats := cats + {f};
      } else if category == DogLabel {
        dogs := dogs + {f};
      }
    }

    /** `delete_annotation`: one pass over the rows, keeping the others and remembering the last dropped label. */
    method DeleteAnnotation(f: string)
      modifies this`ledger, this`cats, this`dogs
      ensures Store(ledger, cats, dogs) == Deleted(old(Store(ledger, cats, dogs)), f)
    {
      if ledger.None? {
        return;
      }
      ghost var before := Store(ledger, cats, dogs);
      var all := ledger.value;
      var rows := [];
      var deleted: Option<string> := None;
      for i := 0 to |all|
        invariant Store(ledger, cats, dogs) == before
        invariant rows == Without(all[..i], f)
        invariant deleted == LabelOf(all[..i], f)
      {
        ScanStep(all, i, f);
        if all[i].filename != f {
          rows := rows + [all[i]];
        } else {
          deleted := Some(all[i].category);
        }
      }
      assert all[..|all|] == all;
      assert Deleted(before, f) == Removed(Store(if rows == [] then None else Some(rows), cats, dogs), f, deleted);
      if rows != [] {
        ledger := Some(rows);
      } else {
        ledger := None;
      }
      assert Store(ledger, cats, dogs) == Store(if rows == [] then None else Some(rows), before.cats, before.dogs);
      if deleted.Some? && deleted.value != "" {
        if deleted.value == CatLabel {
          cats := cats - {f};
        } else {
          dogs := dogs - {f};
        }
      }
    }

    /** One pass of the body of the `start_annotation` loop. */
    method Step(e: Event) returns (quit: bool)
      requires cursor < |images|
      modifies this`cursor, this`ledger, this`cats, this`dogs
      ensures (State(), quit) == Next(old(State()), e)
    {
      ghost var before := State();
      var current := images[cursor];
      quit := false;
      match e {
        case Unreadable =>
          cursor := cursor + 1;
        case Pressed(key, now) =>
          match key {
            case Cat =>
              SaveAnnotation(current, CatLabel, now);
              cursor := cursor + 1;
              assert State() == Session(before.images, before.cursor + 1, Saved(before.store, current, CatLabel, now));
            case Dog =>
              SaveAnnotation(current, DogLabel, now);
              cursor := cursor + 1;
              assert State() == Session(before.images, before.cursor + 1, Saved(before.store, current, DogLabel, now));
            case Skip =>
              cursor := cursor + 1;
            case Undo =>
              if cursor > 0 {
                cursor := cursor - 1;
                DeleteAnnotation(images[cursor]);
                assert State() == Session(before.images, before.cursor - 1, Deleted(before.store, before.images[before.cursor - 1]));
              }
            case Quit =>
              quit := true;
            case Other =>
          }
      }
    }

    /**
     * `start_annotation`: nothing happens on an empty worklist; otherwise the
     * loop runs from cursor 0 over the key presses, and the ledger totals
     * are reported at the end.
     */
    method StartAnnotation(presses: seq<Press>, unreadable: set<string>) returns (stats: Option<Counts>)
      modifies this`cursor, this`ledger, this`cats, this`dogs
      ensures old(images) == [] ==> State() == old(State()) && stats.None?
      ensures old(images) != [] ==> State() == Run(old(State()).(cursor := 0), presses, unreadable)
      ensures old(images) != [] ==> (stats.None? <==> ledger.None?)
      ensures old(images) != [] && stats.Some? ==>
                stats.value == Counts(|WithLabel(ledger.value, CatLabel)|, |WithLabel(ledger.value, DogLabel)|)
      ensures old(images) != [] && old(Coherent(State().(cursor := 0), origin)) ==> Coherent(State(), origin)
    {
      if images == [] {
        return None;
      }
      cursor := 0;
      ghost var start := State();
      ghost var coherent := Coherent(start, origin);
      var k := 0;
      while cursor < |images|
        invariant k <= |presses| && cursor <= |images|
        invariant images == start.images
        invariant Run(State(), presses[k..], unreadable) == Run(start, presses, unreadable)
        invariant coherent ==> Coherent(State(), origin)
        decreases |presses| - k, |images| - cursor
      {
        if images[cursor] in unreadable {
          if coherent {
            NextKeepsCoherent(State(), origin, Unreadable);
          }
          var _ := Step(Unreadable);
        } else if k == |presses| {
          break;
        } else {
          if coherent {
            NextKeepsCoherent(State(), origin, Pressed(presses[k].key, presses[k].now));
          }
          var quit := Step(Pressed(presses[k].key, presses[k].now));
          k := k + 1;
          if quit {
            break;
          }
        }
      }
      stats := ShowStats();
    }

    /** `show_stats`: the numbers of `cat` and `dog` rows, or nothing when there is no ledger file. */
    method ShowStats() returns (r: Option<Counts>)
      ensures r.None? <==> ledger.None?
      ensures r.Some? ==> r.value == Counts(|WithLabel(ledger.value, CatLabel)|, |WithLabel(ledger.value, DogLabel)|)
    {
      if ledger.None? {
        return None;
      }
      var rows := ledger.value;
      var catCount, dogCount := 0, 0;
      for i := 0 to |rows|
        invariant catCount == CountLabel(rows[..i], CatLabel)
        invariant dogCount == CountLabel(rows[..i], DogLabel)
      {
        CountLabelStep(rows, i, CatLabel);
        CountLabelStep(rows, i, DogLabel);
        var category := rows[i].category;
        if category == CatLabel {
          catCount := catCount + 1;
        } else if category == DogLabel {
          dogCount := dogCount + 1;
        }
      }
      assert rows[..|rows|] == rows;
      r := Some(Counts(catCount, dogCount));
    }
  }
}
