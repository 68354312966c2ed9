/**
 * The ledger consumers of the data-preparation tool: label and date
 * statistics, conversion to image/annotation records, the stratified
 * train/validation/test split, and the summary report.  Each works on the
 * rows `load_annotations` yields: none when the ledger file is missing.
 */
module DataPrep {
  import opened Ledger
  import opened Counting

  // ---------------------------------------------------------------------
  // Columns of the rows

  /** The `label` column, row by row. */
  function Labels(rows: seq<Row>): (ls: seq<string>)
    ensures |ls| == |rows|
    ensures forall i :: 0 <= i < |rows| ==> ls[i] == rows[i].category
  {
    if rows == [] then []
    else Labels(rows[..|rows| - 1]) + [rows[|rows| - 1].category]
  }

  /** `timestamp[:10]`, the date part; a shorter timestamp is kept whole. */
  function DateOf(timestamp: string): (d: string)
    ensures |d| == if |timestamp| < 10 then |timestamp| else 10
    ensures d <= timestamp
  {
    if |timestamp| < 10 then timestamp else timestamp[..10]
  }

  /** The date of every row, in row order. */
  function Dates(rows: seq<Row>): (ds: seq<string>)
    ensures |ds| == |rows|
    ensures forall i :: 0 <= i < |rows| ==> ds[i] == DateOf(rows[i].timestamp)
  {
    if rows == [] then []
    else Dates(rows[..|rows| - 1]) + [DateOf(rows[|rows| - 1].timestamp)]
  }

  /** Counting a label among the labels is counting the rows that carry it. */
  lemma {:induction false} LabelOccurrences(rows: seq<Row>, l: string)
    ensures Occurrences(Labels(rows), l) == |WithLabel(rows, l)|
    decreases |rows|
  {
    if rows != [] {
      var init, last := rows[..|rows| - 1], rows[|rows| - 1];
      assert rows == init + [last];
      var ls := Labels(rows);
      assert ls[..|ls| - 1] == Labels(init);
      LabelOccurrences(init, l);
      WithLabelAppend(init, last, l);
    }
  }

  /** A label occurs among the labels exactly when some row carries it. */
  lemma LabelMembership(rows: seq<Row>, l: string)
    ensures l in Labels(rows) <==> exists x :: x in rows && x.category == l
  {
    if l in Labels(rows) {
      var i :| 0 <= i < |rows| && Labels(rows)[i] == l;
      assert rows[i] in rows;
    }
    if exists x :: x in rows && x.category == l {
      var x :| x in rows && x.category == l;
      var i :| 0 <= i < |rows| && rows[i] == x;
      assert Labels(rows)[i] == l;
    }
  }

  /** The label tally lists each label that occurs with its number of rows. */
  lemma LabelTally(rows: seq<Row>)
    ensures forall l :: l in Keys(Tally(Labels(rows))) <==> exists x :: x in rows && x.category == l
    ensures forall i :: 0 <= i < |Tally(Labels(rows))| ==>
              Tally(Labels(rows))[i].1 == |WithLabel(rows, Tally(Labels(rows))[i].0)|
  {
    var t := Tally(Labels(rows));
    forall l
      ensures l in Keys(t) <==> exists x :: x in rows && x.category == l
    {
      LabelMembership(rows, l);
    }
    forall i | 0 <= i < |t|
      ensures t[i].1 == |WithLabel(rows, t[i].0)|
    {
      LabelOccurrences(rows, t[i].0);
    }
  }

  /** The date tally lists each date that occurs, with its number of rows. */
  lemma DateTally(rows: seq<Row>)
    ensures forall d :: d in Keys(Tally(Dates(rows))) <==> exists x :: x in rows && DateOf(x.timestamp) == d
    ensures forall i :: 0 <= i < |Tally(Dates(rows))| ==>
              Tally(Dates(rows))[i].1 == Occurrences(Dates(rows), Tally(Dates(rows))[i].0)
  {
    forall d
      ensures d in Dates(rows) <==> exists x :: x in rows && DateOf(x.timestamp) == d
    {
      if d in Dates(rows) {
        var i :| 0 <= i < |rows| && Dates(rows)[i] == d;
        assert rows[i] in rows;
      }
      if exists x :: x in rows && DateOf(x.timestamp) == d {
        var x :| x in rows && DateOf(x.timestamp) == d;
        var i :| 0 <= i < |rows| && rows[i] == x;
        assert Dates(rows)[i] == d;
      }
    }
  }

  // ---------------------------------------------------------------------
  // show_statistics

  datatype Statistics = Statistics(total: nat, labelCounts: seq<(string, nat)>, dateCounts: seq<(string, nat)>)

  /**
   * `show_statistics`: nothing when there are no rows; otherwise the row
   * total, each label with its number of rows, and each date with its number
   * of rows.  Both lists hold one entry per distinct value and add up to the
   * total.
   */
  function ShowStatistics(file: LedgerFile): (r: Option<Statistics>)
    ensures r.None? <==> Load(file) == []
    ensures r.Some? ==> r.value.total == |Load(file)|
    ensures r.Some? ==> DistinctKeys(r.value.labelCounts) && Total(r.value.labelCounts) == r.value.total
    ensures r.Some? ==> forall l :: l in Keys(r.value.labelCounts) <==> exists x :: x in Load(file) && x.category == l
    ensures r.Some? ==> forall i :: 0 <= i < |r.value.labelCounts| ==>
              r.value.labelCounts[i].1 == |WithLabel(Load(file), r.value.labelCounts[i].0)|
    ensures r.Some? ==> DistinctKeys(r.value.dateCounts) && Total(r.value.dateCounts) == r.value.total
    ensures r.Some? ==> forall d :: d in Keys(r.value.dateCounts) <==> exists x :: x in Load(file) && DateOf(x.timestamp) == d
    ensures r.Some? ==> forall i :: 0 <= i < |r.value.dateCounts| ==>
              r.value.dateCounts[i].1 == Occurrences(Dates(Load(file)), r.value.dateCounts[i].0)
  {
    var rows := Load(file);
    if rows == [] then None
    else
      LabelTally(rows);
      DateTally(rows);
      Some(Statistics(|rows|, Tally(Labels(rows)), Tally(Dates(rows))))
  }

  // ---------------------------------------------------------------------
  // convert_to_json

  datatype Category = Category(id: nat, name: string)
  datatype ImageRecord = ImageRecord(id: nat, fileName: string, timestamp: string)
  datatype AnnotationRecord = AnnotationRecord(id: nat, imageId: nat, categoryId: nat)
  datatype Document = Document(categories: seq<Category>, images: seq<ImageRecord>, annotations: seq<AnnotationRecord>)

  /** The fixed category table of the document. */
  const Categories: seq<Category> := [Category(0, CatLabel), Category(1, DogLabel)]

  /**
   * The category of a label: 0 for `cat`, 1 for every other label.  For the
   * two labels the tool writes, the table entry of the id names the label.
   */
  function CategoryId(l: string): (id: nat)
    ensures id < |Categories|
    ensures id == 0 <==> l == CatLabel
    ensures (l == CatLabel || l == DogLabel) ==> Categories[id].name == l
  {
    if l == CatLabel then 0 else 1
  }

  /**
   * `convert_to_json`: one image record and one annotation record per row,
   * in row order, numbered by row index; an annotation points at the image
   * of the same index and carries the category of that row's label.  A
   * missing ledger file gives a document with no records.
   */
  method ConvertToJson(file: LedgerFile) returns (doc: Document)
    ensures doc.categories == Categories
    ensures |doc.images| == |Load(file)| && |doc.annotations| == |Load(file)|
    ensures forall i :: 0 <= i < |doc.images| ==>
              doc.images[i] == ImageRecord(i, Load(file)[i].filename, Load(file)[i].timestamp)
    ensures forall i :: 0 <= i < |doc.annotations| ==>
              doc.annotations[i].id == i && doc.annotations[i].imageId == i
    ensures forall i :: 0 <= i < |doc.annotations| ==>
              (doc.annotations[i].categoryId == 0 <==> Load(file)[i].category == CatLabel)
    ensures forall i :: 0 <= i < |doc.annotations| ==>
              doc.annotations[i].categoryId < |doc.categories|
              && (Load(file)[i].category in {CatLabel, DogLabel} ==>
                    doc.categories[doc.annotations[i].categoryId].name == Load(file)[i].category)
  {
    var rows := Load(file);
    var images: seq<ImageRecord> := [];
    var annotations: seq<AnnotationRecord> := [];
    for i := 0 to |rows|
      invariant |images| == i && |annotations| == i
      invariant forall j :: 0 <= j < i ==> images[j] == ImageRecord(j, rows[j].filename, rows[j].timestamp)
      invariant forall j :: 0 <= j < i ==> annotations[j] == AnnotationRecord(j, j, CategoryId(rows[j].category))
    {
      images := images + [ImageRecord(i, rows[i].filename, rows[i].timestamp)];
      var categoryId := if rows[i].category == CatLabel then 0 else 1;
      annotations := annotations + [AnnotationRecord(i, i, categoryId)];
    }
    doc := Document(Categories, images, annotations);
  }

  // ---------------------------------------------------------------------
  // split_data / split_dataset

  /** The two cut points of a split, already turned into whole numbers. */
  datatype SplitPoints = SplitPoints(train: nat, val: nat)

  datatype Split<T> = Split(train: seq<T>, val: seq<T>, test: seq<T>)

  /**
   * `split_data`: `data[:train]`, `data[train:train+val]` and
   * `data[train+val:]`, with Python's clamping of slice bounds.  The parts
   * are consecutive pieces that together give back the data.
   */
  function SplitData<T>(data: seq<T>, p: SplitPoints): (s: Split<T>)
    ensures s.train + s.val + s.test == data
    ensures |s.train| == if p.train < |data| then p.train else |data|
    ensures |s.val| == if p.val < |data| - |s.train| then p.val else |data| - |s.train|
    ensures |s.test| == |data| - |s.train| - |s.val|
  {
    var n := |data|;
    var a := if p.train < n then p.train else n;
    var b := if p.train + p.val < n then p.train + p.val else n;
    assert data == data[..a] + data[a..b] + data[b..];
    Split(data[..a], data[a..b], data[b..])
  }

  /** The names of the three splits, in the order they are produced. */
  const SplitNames: seq<string> := ["train", "val", "test"]

  /** Part `k` of a split: 0 the training part, 1 the validation part, 2 the test part. */
  function Part<T>(s: Split<T>, k: nat): seq<T>
  {
    if k == 0 then s.train else if k == 1 then s.val else s.test
  }

  /** One merged split: its name, its rows, and its numbers of `cat` and `dog` rows. */
  datatype SplitReport = SplitReport(name: string, rows: seq<Row>, cats: nat, dogs: nat)

  /**
   * The shuffling the tool performs, as an input: call `k` returns the list it
   * is given in some order.  Calls 0 and 1 shuffle the cat and the dog rows,
   * calls 2, 3 and 4 the merged training, validation and test splits.
   */
  type Shuffler = (nat, seq<Row>) -> seq<Row>

  ghost predicate Permutes(shuffle: Shuffler)
  {
    forall k, s :: multiset(shuffle(k, s)) == multiset(s)
  }

  predicate AllLabelled(s: seq<Row>, l: string)
  {
    forall x :: x in s ==> x.category == l
  }

  /** The rows of one label, shuffled and split, using the cut points chosen for their number. */
  function GroupSplit(rows: seq<Row>, l: string, k: nat, points: nat -> SplitPoints, shuffle: Shuffler): (s: Split<Row>)
    requires Permutes(shuffle)
    ensures AllLabelled(s.train, l) && AllLabelled(s.val, l) && AllLabelled(s.test, l)
    ensures |s.train| + |s.val| + |s.test| == |WithLabel(rows, l)|
    ensures multiset(s.train + s.val + s.test) == multiset(WithLabel(rows, l))
  {
    var group := WithLabel(rows, l);
    var shuffled := shuffle(k, group);
    assert forall x :: x in shuffled ==> x in group by {
      forall x | x in shuffled
        ensures x in group
      {
        assert x in multiset(shuffled);
      }
    }
    assert |shuffled| == |group| by {
      assert |multiset(shuffled)| == |multiset(group)|;
    }
    SplitData(shuffled, points(|shuffled|))
  }

  /**
   * Split `k` as reported: its name, the shuffle of the cat part followed by
   * the dog part, and as many cat and dog rows as those parts hold.
   */
  ghost predicate Reported(rep: SplitReport, k: nat, cs: Split<Row>, ds: Split<Row>, shuffle: Shuffler)
    requires k < 3
  {
    && rep.name == SplitNames[k]
    && rep.rows == shuffle(2 + k, Part(cs, k) + Part(ds, k))
    && rep.cats == |Part(cs, k)| && rep.dogs == |Part(ds, k)|
  }

  lemma AllLabelledNone(s: seq<Row>, l: string, other: string)
    requires AllLabelled(s, other) && other != l
    ensures |WithLabel(s, l)| == 0
  {
    if WithLabel(s, l) != [] {
      assert WithLabel(s, l)[0] in WithLabel(s, l);
    }
  }

  lemma {:induction false} AllLabelledAll(s: seq<Row>, l: string)
    requires AllLabelled(s, l)
    ensures WithLabel(s, l) == s
    decreases |s|
  {
    if s != [] {
      var init, last := s[..|s| - 1], s[|s| - 1];
      assert s == init + [last];
      AllLabelledAll(init, l);
      WithLabelAppend(init, last, l);
    }
  }

  /**
   * A merged split that reorders a part of cats followed by a part of dogs
   * holds as many `cat` rows as the cat part and as many `dog` rows as the
   * dog part.
   */
  lemma MergedCounts(catPart: seq<Row>, dogPart: seq<Row>, merged: seq<Row>)
    requires AllLabelled(catPart, CatLabel) && AllLabelled(dogPart, DogLabel)
    requires multiset(merged) == multiset(catPart + dogPart)
    ensures |WithLabel(merged, CatLabel)| == |catPart|
    ensures |WithLabel(merged, DogLabel)| == |dogPart|
  {
    WithLabelPermutation(merged, catPart + dogPart, CatLabel);
    WithLabelPermutation(merged, catPart + dogPart, DogLabel);
    WithLabelConcat(catPart, dogPart, CatLabel);
    WithLabelConcat(catPart, dogPart, DogLabel);
    AllLabelledAll(catPart, CatLabel);
    AllLabelledAll(dogPart, DogLabel);
    AllLabelledNone(catPart, DogLabel, CatLabel);
    AllLabelledNone(dogPart, CatLabel, DogLabel);
  }

  /**
   * `split_dataset`: nothing when there are no rows.  Otherwise the cat rows
   * and the dog rows are each shuffled and split with the cut points chosen
   * for their number; the three merged splits each shuffle the matching cat
   * part followed by the dog part, and report how many cat and dog rows they
   * hold.  Every cat and dog row lands in exactly one split, and rows with
   * any other label in none.
   */
  method SplitDataset(file: LedgerFile, points: nat -> SplitPoints, shuffle: Shuffler) returns (r: Option<seq<SplitReport>>)
    requires Permutes(shuffle)
    ensures r.None? <==> Load(file) == []
    ensures r.Some? ==> |r.value| == 3
    ensures r.Some? ==> forall k :: 0 <= k < 3 ==>
              Reported(r.value[k], k, GroupSplit(Load(file), CatLabel, 0, points, shuffle),
                       GroupSplit(Load(file), DogLabel, 1, points, shuffle), shuffle)
    ensures r.Some? ==> r.value[0].cats + r.value[1].cats + r.value[2].cats == |WithLabel(Load(file), CatLabel)|
    ensures r.Some? ==> r.value[0].dogs + r.value[1].dogs + r.value[2].dogs == |WithLabel(Load(file), DogLabel)|
    ensures r.Some? ==> multiset(r.value[0].rows + r.value[1].rows + r.value[2].rows)
                        == multiset(WithLabel(Load(file), CatLabel) + WithLabel(Load(file), DogLabel))
  {
    var rows := Load(file);
    if rows == [] {
      return None;
    }
    var cs := GroupSplit(rows, CatLabel, 0, points, shuffle);
    var ds := GroupSplit(rows, DogLabel, 1, points, shuffle);
    var reports := MergeSplits(cs, ds, shuffle);
    SplitTotals(rows, cs, ds, reports, shuffle);
    r := Some(reports);
  }

  /**
   * The loop over `train`, `val` and `test`: each merged split shuffles the
   * cat part followed by the dog part and counts its cat and dog rows.
   */
  method MergeSplits(cs: Split<Row>, ds: Split<Row>, shuffle: Shuffler) returns (reports: seq<SplitReport>)
    requires Permutes(shuffle)
    requires AllLabelled(cs.train, CatLabel) && AllLabelled(cs.val, CatLabel) && AllLabelled(cs.test, CatLabel)
    requires AllLabelled(ds.train, DogLabel) && AllLabelled(ds.val, DogLabel) && AllLabelled(ds.test, DogLabel)
    ensures |reports| == 3
    ensures forall k :: 0 <= k < 3 ==> Reported(reports[k], k, cs, ds, shuffle)
  {
    reports := [];
    for k := 0 to 3
      invariant |reports| == k
      invariant forall j :: 0 <= j < k ==> Reported(reports[j], j, cs, ds, shuffle)
    {
      var merged := shuffle(2 + k, Part(cs, k) + Part(ds, k));
      MergedCounts(Part(cs, k), Part(ds, k), merged);
      var report := SplitReport(SplitNames[k], merged, |WithLabel(merged, CatLabel)|, |WithLabel(merged, DogLabel)|);
      assert Reported(report, k, cs, ds, shuffle);
      reports := reports + [report];
    }
  }

  /** The three merged splits together count, and reorder, all cat and dog rows. */
  lemma SplitTotals(rows: seq<Row>, cs: Split<Row>, ds: Split<Row>, reports: seq<SplitReport>, shuffle: Shuffler)
    requires Permutes(shuffle)
    requires multiset(cs.train + cs.val + cs.test) == multiset(WithLabel(rows, CatLabel))
    requires multiset(ds.train + ds.val + ds.test) == multiset(WithLabel(rows, DogLabel))
    requires |reports| == 3 && forall k :: 0 <= k < 3 ==> Reported(reports[k], k, cs, ds, shuffle)
    ensures reports[0].cats + reports[1].cats + reports[2].cats == |WithLabel(rows, CatLabel)|
    ensures reports[0].dogs + reports[1].dogs + reports[2].dogs == |WithLabel(rows, DogLabel)|
    ensures multiset(reports[0].rows + reports[1].rows + reports[2].rows)
            == multiset(WithLabel(rows, CatLabel) + WithLabel(rows, DogLabel))
  {
    assert Reported(reports[0], 0, cs, ds, shuffle);
    assert Reported(reports[1], 1, cs, ds, shuffle);
    assert Reported(reports[2], 2, cs, ds, shuffle);
    assert |multiset(cs.train + cs.val + cs.test)| == |WithLabel(rows, CatLabel)|;
    assert |multiset(ds.train + ds.val + ds.test)| == |WithLabel(rows, DogLabel)|;
  }

  /**
   * Splits that together reorder the cat and dog rows hold only ledger rows
   * labelled `cat` or `dog`: a row with any other label lands in no split.
   */
  lemma OnlyCatsAndDogs(rows: seq<Row>, merged: seq<Row>)
    requires multiset(merged) == multiset(WithLabel(rows, CatLabel) + WithLabel(rows, DogLabel))
    ensures forall x :: x in merged ==> x in rows && (x.category == CatLabel || x.category == DogLabel)
  {
    forall x | x in merged
      ensures x in rows && (x.category == CatLabel || x.category == DogLabel)
    {
      assert x in multiset(merged);
      assert x in WithLabel(rows, CatLabel) + WithLabel(rows, DogLabel);
    }
  }

  // ---------------------------------------------------------------------
  // generate_report

  /** The overall figures and the per-label distribution of the report. */
  datatype Report = Report(total: nat, categoryCount: nat, distribution: map<string, nat>)

  /**
   * `generate_report`: nothing when there are no rows.  Otherwise the row
   * total, the number of distinct labels, and for each label that occurs its
   * number of rows.
   */
  method GenerateReport(file: LedgerFile) returns (r: Option<Report>)
    ensures r.None? <==> Load(file) == []
    ensures r.Some? ==> r.value.total == |Load(file)|
    ensures r.Some? ==> r.value.categoryCount == |set x | x in Load(file) :: x.category|
    ensures r.Some? ==> r.value.categoryCount == |r.value.distribution.Keys|
    ensures r.Some? ==> forall l :: l in r.value.distribution <==> exists x :: x in Load(file) && x.category == l
    ensures r.Some? ==> forall l :: l in r.value.distribution ==> r.value.distribution[l] == |WithLabel(Load(file), l)|
  {
    var rows := Load(file);
    if rows == [] {
      return None;
    }
    var counts := Tally(Labels(rows));
    var distribution := Distribution(counts);
    ReportFacts(rows, counts, distribution);
    r := Some(Report(|rows|, |counts|, distribution));
  }

  /** The loop filling the report's distribution: one key per tally entry, mapped to its count. */
  method Distribution(counts: seq<(string, nat)>) returns (distribution: map<string, nat>)
    requires DistinctKeys(counts)
    ensures distribution.Keys == set j | 0 <= j < |counts| :: counts[j].0
    ensures forall j :: 0 <= j < |counts| ==> distribution[counts[j].0] == counts[j].1
  {
    distribution := map[];
    for i := 0 to |counts|
      invariant distribution.Keys == set j | 0 <= j < i :: counts[j].0
      invariant forall j :: 0 <= j < i ==> distribution[counts[j].0] == counts[j].1
    {
      distribution := distribution[counts[i].0 := counts[i].1];
    }
  }

  /** The number of tally entries is the number of distinct labels. */
  lemma DistinctLabelCount(rows: seq<Row>)
    ensures |Tally(Labels(rows))| == |set x | x in rows :: x.category|
  {
    var labels := Labels(rows);
    TallySize(labels);
    forall l
      ensures l in labels <==> l in (set x | x in rows :: x.category)
    {
      LabelMembership(rows, l);
    }
    assert (set x | x in labels) == (set x | x in rows :: x.category);
  }

  /** A map filled from a tally has the tally's values as keys, one per entry. */
  lemma DistributionKeys(counts: seq<(string, nat)>, distribution: map<string, nat>)
    requires DistinctKeys(counts)
    requires distribution.Keys == set j | 0 <= j < |counts| :: counts[j].0
    ensures forall l :: l in distribution <==> l in Keys(counts)
    ensures |distribution.Keys| == |counts|
  {
    KeySets(counts);
    DistinctKeysCard(counts);
  }

  /** The values of a tally, read off its entries or off `Keys`, are the same set. */
  lemma KeySets(counts: seq<(string, nat)>)
    ensures (set j | 0 <= j < |counts| :: counts[j].0) == set l | l in Keys(counts)
  {
    var ks := Keys(counts);
    forall l
      ensures l in (set j | 0 <= j < |counts| :: counts[j].0) <==> l in ks
    {
      if l in ks {
        var j :| 0 <= j < |ks| && ks[j] == l;
        assert counts[j].0 == l;
      }
    }
  }

  /** A tally with one entry per value has as many values as entries. */
  lemma DistinctKeysCard(counts: seq<(string, nat)>)
    requires DistinctKeys(counts)
    ensures |set l | l in Keys(counts)| == |counts|
  {
    var ks := Keys(counts);
    forall i, j | 0 <= i < j < |ks|
      ensures ks[i] != ks[j]
    {
      assert ks[i] == counts[i].0 && ks[j] == counts[j].0;
    }
    DistinctCard(ks);
  }

  /** What the report's figures mean in terms of the rows. */
  lemma ReportFacts(rows: seq<Row>, counts: seq<(string, nat)>, distribution: map<string, nat>)
    requires counts == Tally(Labels(rows))
    requires distribution.Keys == set j | 0 <= j < |counts| :: counts[j].0
    requires forall j :: 0 <= j < |counts| ==> distribution[counts[j].0] == counts[j].1
    ensures |counts| == |set x | x in rows :: x.category|
    ensures |counts| == |distribution.Keys|
    ensures forall l :: l in distribution <==> exists x :: x in rows && x.category == l
    ensures forall l :: l in distribution ==> distribution[l] == |WithLabel(rows, l)|
  {
    DistinctLabelCount(rows);
    DistributionKeys(counts, distribution);
    LabelTally(rows);
    forall l | l in distribution
      ensures distribution[l] == |WithLabel(rows, l)|
    {
      var j :| 0 <= j < |counts| && counts[j].0 == l;
    }
  }
}
