/**
 * Building the annotation worklist: the image files of the input directory
 * (by extension), one copy of each, in ascending filename order, without the
 * files that already have a ledger row.
 *
 * Filenames are compared as Python compares strings: code point by code
 * point, a proper prefix sorting first.  All worklist paths share the input
 * directory, so ordering the paths orders their final names.
 */
module Worklist {

  /** The extensions globbed for, in the order they are globbed. */
  const Extensions: seq<string> := [".jpg", ".jpeg", ".png", ".bmp"]

  predicate EndsWith(name: string, ext: string)
  {
    |ext| <= |name| && name[|name| - |ext|..] == ext
  }

  predicate MatchesAny(name: string, exts: seq<string>)
  {
    exists ext :: ext in exts && EndsWith(name, ext)
  }

  /** A name the `*<ext>` globs pick up (case-sensitive). */
  predicate IsImageName(name: string)
  {
    MatchesAny(name, Extensions)
  }

  /** The names of the listing that the glob `*<ext>` matches, in listing order. */
  function Matching(listing: seq<string>, ext: string): (r: seq<string>)
    ensures forall n :: n in r <==> n in listing && EndsWith(n, ext)
  {
    if listing == [] then []
    else (if EndsWith(listing[0], ext) then [listing[0]] else []) + Matching(listing[1..], ext)
  }

  // ---------------------------------------------------------------------
  // Lexicographic order on filenames

  predicate Less(a: string, b: string)
  {
    if a == [] then b != []
    else if b == [] then false
    else a[0] < b[0] || (a[0] == b[0] && Less(a[1..], b[1..]))
  }

  /**
   * The order Python gives strings, stated directly: a proper prefix comes
   * first, and otherwise the first differing character decides.
   */
  predicate Lexicographic(a: string, b: string)
  {
    (|a| < |b| && a == b[..|a|])
    || exists k :: 0 <= k < |a| && k < |b| && a[..k] == b[..k] && a[k] < b[k]
  }

  /** With different first characters, the first character decides. */
  lemma LexicographicHeadsDiffer(a: string, b: string)
    requires a != [] && b != [] && a[0] != b[0]
    ensures Lexicographic(a, b) <==> a[0] < b[0]
  {
    forall k | 0 < k <= |a| && k <= |b|
      ensures a[..k] != b[..k]
    {
      assert a[..k][0] == a[0] && b[..k][0] == b[0];
    }
    assert a[..|a|] == a;
    assert a[..0] == b[..0];
  }

  /** With equal first characters, an order of the rests carries over to the whole strings. */
  lemma LexicographicFromTails(a: string, b: string)
    requires a != [] && b != [] && a[0] == b[0] && Lexicographic(a[1..], b[1..])
    ensures Lexicographic(a, b)
  {
    var a', b' := a[1..], b[1..];
    if |a'| < |b'| && a' == b'[..|a'|] {
      assert a == [a[0]] + a' && b[..|a|] == [b[0]] + b'[..|a'|];
    } else {
      var k :| 0 <= k < |a'| && k < |b'| && a'[..k] == b'[..k] && a'[k] < b'[k];
      assert a[..k + 1] == [a[0]] + a'[..k] && b[..k + 1] == [b[0]] + b'[..k];
    }
  }

  /** With equal first characters, an order of the whole strings is an order of the rests. */
  lemma LexicographicToTails(a: string, b: string)
    requires a != [] && b != [] && a[0] == b[0] && Lexicographic(a, b)
    ensures Lexicographic(a[1..], b[1..])
  {
    var a', b' := a[1..], b[1..];
    if |a| < |b| && a == b[..|a|] {
      assert a' == b'[..|a'|];
    } else {
      var k :| 0 <= k < |a| && k < |b| && a[..k] == b[..k] && a[k] < b[k];
      assert k != 0;
      assert a'[..k - 1] == a[1..k] == b[1..k] == b'[..k - 1];
    }
  }

  /** `Less` is the order Python gives strings. */
  lemma {:induction false} LessIsLexicographic(a: string, b: string)
    ensures Less(a, b) <==> Lexicographic(a, b)
    decreases |a|
  {
    if a == [] {
      assert a == b[..0];
    } else if b != [] {
      if a[0] == b[0] {
        LessIsLexicographic(a[1..], b[1..]);
        if Lexicographic(a[1..], b[1..]) {
          LexicographicFromTails(a, b);
        }
        if Lexicographic(a, b) {
          LexicographicToTails(a, b);
        }
      } else {
        LexicographicHeadsDiffer(a, b);
      }
    }
  }

  lemma {:induction false} LessIrreflexive(a: string)
    ensures !Less(a, a)
  {
    if a != [] {
      LessIrreflexive(a[1..]);
    }
  }

  lemma {:induction false} LessAsymmetric(a: string, b: string)
    requires Less(a, b)
    ensures !Less(b, a)
  {
    if a != [] && b != [] && a[0] == b[0] {
      LessAsymmetric(a[1..], b[1..]);
    }
  }

  lemma {:induction false} LessTransitive(a: string, b: string, c: string)
    requires Less(a, b) && Less(b, c)
    ensures Less(a, c)
  {
    if a != [] && a[0] == b[0] && b[0] == c[0] {
      LessTransitive(a[1..], b[1..], c[1..]);
    }
  }

  lemma {:induction false} LessTotal(a: string, b: string)
    requires a != b
    ensures Less(a, b) || Less(b, a)
  {
    if a != [] && b != [] && a[0] == b[0] {
      assert a == [a[0]] + a[1..] && b == [b[0]] + b[1..];
      LessTotal(a[1..], b[1..]);
    }
  }

  /** Ascending with no repeats: the shape of `sorted(set(names))`. */
  predicate StrictlySorted(s: seq<string>)
  {
    forall i, j :: 0 <= i < j < |s| ==> Less(s[i], s[j])
  }

  predicate Distinct(s: seq<string>)
  {
    forall i, j :: 0 <= i < j < |s| ==> s[i] != s[j]
  }

  lemma SortedIsDistinct(s: seq<string>)
    requires StrictlySorted(s)
    ensures Distinct(s)
  {
    forall i, j | 0 <= i < j < |s|
      ensures s[i] != s[j]
    {
      LessIrreflexive(s[i]);
    }
  }

  lemma PrependSorted(h: string, t: seq<string>)
    requires StrictlySorted(t)
    requires forall y :: y in t ==> Less(h, y)
    ensures StrictlySorted([h] + t)
  {
    var s := [h] + t;
    forall i, j | 0 <= i < j < |s|
      ensures Less(s[i], s[j])
    {
      if i > 0 {
        assert s[i] == t[i - 1] && s[j] == t[j - 1];
      } else {
        assert s[j] in t;
      }
    }
  }

  lemma BelowSorted(x: string, s: seq<string>)
    requires StrictlySorted(s) && s != [] && Less(x, s[0])
    ensures forall y :: y in s ==> Less(x, y)
  {
    forall y | y in s
      ensures Less(x, y)
    {
      var k :| 0 <= k < |s| && s[k] == y;
      if k > 0 {
        LessTransitive(x, s[0], y);
      }
    }
  }

  /** In an ascending list, everything taken from the tail lies above the head. */
  lemma TailAboveHead(s: seq<string>, t: seq<string>)
    requires s != [] && forall y :: y in t ==> y in s[1..]
    ensures StrictlySorted(s) && StrictlySorted(t) ==> StrictlySorted([s[0]] + t)
  {
    if StrictlySorted(s) && StrictlySorted(t) {
      forall y | y in t
        ensures Less(s[0], y)
      {
        var k :| 0 <= k < |s[1..]| && s[1..][k] == y;
        assert s[k + 1] == y;
      }
      PrependSorted(s[0], t);
    }
  }

  lemma InsertAbove(s: seq<string>, x: string, rest: seq<string>)
    requires StrictlySorted(s) && s != [] && Less(s[0], x)
    requires StrictlySorted(rest) && forall y :: y in rest ==> y in s[1..] || y == x
    ensures StrictlySorted([s[0]] + rest)
  {
    forall y | y in rest
      ensures Less(s[0], y)
    {
      if y != x {
        var k :| 0 <= k < |s[1..]| && s[1..][k] == y;
        assert s[k + 1] == y;
      }
    }
    PrependSorted(s[0], rest);
  }

  /** Adds `x` to a strictly ascending list unless it is already there. */
  function Insert(s: seq<string>, x: string): (r: seq<string>)
    requires StrictlySorted(s)
    ensures StrictlySorted(r)
    ensures forall y :: y in r <==> y in s || y == x
  {
    if s == [] then [x]
    else if x == s[0] then s
    else if Less(x, s[0]) then
      BelowSorted(x, s);
      PrependSorted(x, s);
      [x] + s
    else
      LessTotal(x, s[0]);
      var rest := Insert(s[1..], x);
      InsertAbove(s, x, rest);
      assert s == [s[0]] + s[1..];
      [s[0]] + rest
  }

  lemma HeadIsMember(s: seq<string>)
    requires s != []
    ensures s[0] in s
  {
  }

  /**
   * A strictly ascending list is determined by its members: whatever order
   * the names were found in, deduplicating and sorting them gives this list.
   */
  lemma {:induction false} SortedUnique(a: seq<string>, b: seq<string>)
    requires StrictlySorted(a) && StrictlySorted(b)
    requires forall y :: y in a <==> y in b
    ensures a == b
    decreases |a|
  {
    if a == [] {
      if b != [] {
        HeadIsMember(b);
        assert false;
      }
    } else {
      assert a[0] in b;
      assert b != [];
      if a[0] != b[0] {
        assert b[0] in a;
        var i :| 0 <= i < |a| && a[i] == b[0];
        var j :| 0 <= j < |b| && b[j] == a[0];
        assert i > 0 && j > 0;
        // a[0] < a[i] == b[0] < b[j] == a[0]
        LessTransitive(a[0], b[0], a[0]);
        LessIrreflexive(a[0]);
      }
      forall y
        ensures y in a[1..] <==> y in b[1..]
      {
        if y in a[1..] {
          var k :| 0 <= k < |a[1..]| && a[1..][k] == y;
          LessIrreflexive(a[0]);
          assert Less(a[0], a[k + 1]);
          assert y in b && y != b[0];
          var m :| 0 <= m < |b| && b[m] == y;
          assert b[1..][m - 1] == y;
        }
        if y in b[1..] {
          var k :| 0 <= k < |b[1..]| && b[1..][k] == y;
          LessIrreflexive(b[0]);
          assert Less(b[0], b[k + 1]);
          assert y in a && y != a[0];
          var m :| 0 <= m < |a| && a[m] == y;
          assert a[1..][m - 1] == y;
        }
      }
      SortedUnique(a[1..], b[1..]);
      assert a == [a[0]] + a[1..] && b == [b[0]] + b[1..];
    }
  }

  /**
   * The images without a ledger row (`img.name not in existing`), keeping
   * their order.
   */
  function Unlabelled(images: seq<string>, labelled: set<string>): (r: seq<string>)
    ensures forall n :: n in r <==> n in images && n !in labelled
    ensures StrictlySorted(images) ==> StrictlySorted(r)
  {
    if images == [] then []
    else
      var rest := Unlabelled(images[1..], labelled);
      if images[0] in labelled then
        rest
      else
        TailAboveHead(images, rest);
        [images[0]] + rest
  }
}
