/**
 * The column set: a `BTreeSet<String>`, which keeps its names unique and
 * yields them in ascending order. It is modelled as the strictly ascending
 * sequence it iterates. Rust orders `String`s byte by byte over UTF-8, which
 * is the same as ordering them character by character over code points.
 */
module Columns {

  /** Lexicographic order on strings: a proper prefix comes first. */
  predicate Less(a: string, b: string)
    decreases |a|
  {
    if a == [] then b != []
    else b != [] && (a[0] < b[0] || (a[0] == b[0] && Less(a[1..], b[1..])))
  }

  lemma {:induction false} LessIrreflexive(a: string)
    ensures !Less(a, a)
    decreases |a|
  {
    if a != [] {
      LessIrreflexive(a[1..]);
    }
  }

  lemma {:induction false} LessTransitive(a: string, b: string, c: string)
    requires Less(a, b) && Less(b, c)
    ensures Less(a, c)
    decreases |a|
  {
    if a != [] && a[0] == b[0] && b[0] == c[0] {
      LessTransitive(a[1..], b[1..], c[1..]);
    }
  }

  lemma {:induction false} LessTotal(a: string, b: string)
    requires a != b
    ensures Less(a, b) || Less(b, a)
    decreases |a|
  {
    if a != [] && b != [] && a[0] == b[0] {
      assert a == [a[0]] + a[1..] && b == [b[0]] + b[1..];
      LessTotal(a[1..], b[1..]);
    }
  }

  predicate StrictlySorted(s: seq<string>) {
    forall i, j :: 0 <= i < j < |s| ==> Less(s[i], s[j])
  }

  function Elements(s: seq<string>): set<string> {
    set x | x in s
  }

  /** A strictly ascending sequence holds every name once. */
  lemma StrictlySortedDistinct(s: seq<string>)
    requires StrictlySorted(s)
    ensures forall i, j :: 0 <= i < |s| && 0 <= j < |s| && i != j ==> s[i] != s[j]
  {
    forall i, j | 0 <= i < |s| && 0 <= j < |s| && i != j
      ensures s[i] != s[j]
    {
      if i < j { LessIrreflexive(s[i]); } else { LessIrreflexive(s[j]); }
    }
  }

  /** A name below the first of a sorted sequence goes in front of it. */
  lemma InsertFront(cols: seq<string>, k: string)
    requires StrictlySorted(cols) && cols != [] && Less(k, cols[0])
    ensures StrictlySorted([k] + cols) && k !in cols
    ensures Elements([k] + cols) == Elements(cols) + {k}
  {
    forall j | 0 <= j < |cols|
      ensures Less(k, cols[j]) && cols[j] != k
    {
      if j > 0 { LessTransitive(k, cols[0], cols[j]); }
      LessIrreflexive(k);
    }
  }

  /** A name above the first of a sorted sequence goes into its tail. */
  lemma InsertLater(cols: seq<string>, k: string, rest: seq<string>)
    requires StrictlySorted(cols) && cols != [] && Less(cols[0], k)
    requires StrictlySorted(rest) && Elements(rest) == Elements(cols[1..]) + {k}
    ensures StrictlySorted([cols[0]] + rest)
    ensures Elements([cols[0]] + rest) == Elements(cols) + {k}
    ensures k in cols <==> k in cols[1..]
  {
    assert cols == [cols[0]] + cols[1..];
    assert Elements(cols) == {cols[0]} + Elements(cols[1..]);
    assert Elements([cols[0]] + rest) == {cols[0]} + Elements(rest);
    forall j | 0 <= j < |rest|
      ensures Less(cols[0], rest[j])
    {
      assert rest[j] in Elements(rest);
    }
    LessIrreflexive(k);
  }

  /** `BTreeSet::insert`: add one name, keeping the names unique and ascending. */
  function Insert(cols: seq<string>, k: string): (r: seq<string>)
    requires StrictlySorted(cols)
    ensures StrictlySorted(r)
    ensures Elements(r) == Elements(cols) + {k}
    ensures |r| == if k in cols then |cols| else |cols| + 1
  {
    if cols == [] then [k]
    else if k == cols[0] then cols
    else if Less(k, cols[0]) then
      InsertFront(cols, k);
      [k] + cols
    else
      LessTotal(k, cols[0]);
      var rest := Insert(cols[1..], k);
      InsertLater(cols, k, rest);
      [cols[0]] + rest
  }

  /** `Extend`: insert names one after another, as `BTreeSet::extend` does. */
  function InsertAll(cols: seq<string>, keys: seq<string>): (r: seq<string>)
    requires StrictlySorted(cols)
    ensures StrictlySorted(r)
    ensures Elements(r) == Elements(cols) + Elements(keys)
    decreases keys
  {
    if keys == [] then cols
    else
      assert Elements(keys) == {keys[0]} + Elements(keys[1..]);
      InsertAll(Insert(cols, keys[0]), keys[1..])
  }

  lemma NonEmptyHasElement(s: seq<string>)
    ensures s != [] <==> Elements(s) != {}
  {
    if s != [] {
      assert s[0] in Elements(s);
    }
  }

  /**
   * Two strictly ascending sequences with the same names are the same
   * sequence: the order in which names were inserted does not matter.
   */
  lemma {:induction false} SortedUnique(a: seq<string>, b: seq<string>)
    requires StrictlySorted(a) && StrictlySorted(b)
    requires Elements(a) == Elements(b)
    ensures a == b
    decreases |a|
  {
    if a == [] {
      NonEmptyHasElement(b);
    } else {
      assert a[0] in Elements(b);
      assert b != [];
      assert b[0] in Elements(a);
      if a[0] != b[0] {
        var i :| 0 <= i < |a| && a[i] == b[0];
        var j :| 0 <= j < |b| && b[j] == a[0];
        assert Less(a[0], a[i]);
        assert Less(b[0], b[j]);
        LessTransitive(a[0], b[0], a[0]);
        LessIrreflexive(a[0]);
        assert false;
      }
      StrictlySortedDistinct(a);
      StrictlySortedDistinct(b);
      assert Elements(a[1..]) == Elements(a) - {a[0]} by {
        assert a == [a[0]] + a[1..];
      }
      assert Elements(b[1..]) == Elements(b) - {b[0]} by {
        assert b == [b[0]] + b[1..];
      }
      SortedUnique(a[1..], b[1..]);
      assert a == [a[0]] + a[1..] && b == [b[0]] + b[1..];
    }
  }
}
