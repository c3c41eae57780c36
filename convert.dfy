/**
 * `run`: ingest every input line, then write the header and one row per
 * record. Nothing is written until every line has been ingested, because
 * the header is the union of the keyword keys of all records. Reading
 * standard input, the EDN parser and the tab-separated writer are outside
 * the model: the input is the parser's outcome for each line, and the output
 * is the table as rows of fields.
 */
module Convert {
  import opened Results
  import opened Printer
  import opened Columns
  import Decimal

  /** The entries of an EDN map, in the order the library iterates them. */
  type Entries = seq<(Value, Value)>

  /** What the EDN parser reports for a malformed line: byte offsets and a message. */
  datatype ParserError = ParserError(lo: nat, hi: nat, message: string)

  /** The parser's outcome for one line: an error, nothing (a blank line), or a value. */
  datatype LineOutcome = Malformed(cause: ParserError) | NoValue | Parsed(value: Value)

  /** The fatal error of a run: the 0-based number of the malformed line and the parser's report. */
  datatype ParseError = ParseError(linenum: nat, cause: ParserError)

  /** A line written to standard error; the run goes on after it. */
  datatype Diagnostic = NonKeywordKey(key: Value) | NonMap(line: nat)

  /** What ingestion accumulates: the records, and the column set in ascending order. */
  datatype Ingested = Ingested(records: seq<Entries>, columns: seq<string>)

  /** The keys of a map, in entry order. */
  function Keys(m: Entries): seq<Value>
  {
    if m == [] then [] else [m[0].0] + Keys(m[1..])
  }

  /** The names of a map's keyword keys, in entry order: the `filter_map` over its keys. */
  function KeywordNames(m: Entries): seq<string>
  {
    if m == [] then []
    else (if m[0].0.Keyword? then [m[0].0.name] else []) + KeywordNames(m[1..])
  }

  /** The diagnostics for a map's keys that are not keywords, in entry order. */
  function SkippedKeys(m: Entries): seq<Diagnostic>
  {
    if m == [] then []
    else (if m[0].0.Keyword? then [] else [NonKeywordKey(m[0].0)]) + SkippedKeys(m[1..])
  }

  /** A name is a column name of a map exactly when the map has that keyword as a key. */
  lemma {:induction false} KeywordNamesExact(m: Entries, k: string)
    ensures k in KeywordNames(m) <==> exists j :: 0 <= j < |m| && m[j].0 == Keyword(k)
  {
    if m != [] {
      KeywordNamesExact(m[1..], k);
      if exists j :: 0 <= j < |m[1..]| && m[1..][j].0 == Keyword(k) {
        var j :| 0 <= j < |m[1..]| && m[1..][j].0 == Keyword(k);
        assert m[j + 1].0 == Keyword(k);
      }
      if exists j :: 0 <= j < |m| && m[j].0 == Keyword(k) {
        var j :| 0 <= j < |m| && m[j].0 == Keyword(k);
        if j > 0 {
          assert m[1..][j - 1].0 == Keyword(k);
        }
      }
    }
  }

  /**
   * Every key of a map is either a column name or reported once, in entry
   * order; the reports name keys that are not keywords and nothing else.
   */
  lemma {:induction false} SkippedKeysExact(m: Entries)
    ensures |SkippedKeys(m)| + |KeywordNames(m)| == |m|
    ensures forall d :: d in SkippedKeys(m) ==>
      d.NonKeywordKey? && !d.key.Keyword? && exists j :: 0 <= j < |m| && m[j].0 == d.key
  {
    if m != [] {
      SkippedKeysExact(m[1..]);
      forall d | d in SkippedKeys(m)
        ensures d.NonKeywordKey? && !d.key.Keyword? && exists j :: 0 <= j < |m| && m[j].0 == d.key
      {
        if d !in SkippedKeys(m[1..]) {
          assert d == NonKeywordKey(m[0].0);
        } else {
          var j :| 0 <= j < |m[1..]| && m[1..][j].0 == d.key;
          assert m[j + 1].0 == d.key;
        }
      }
    }
  }

  /**
   * Every key that is not a keyword is reported as many times as it occurs
   * among the map's keys, and so exactly once in a map with unique keys.
   */
  lemma {:induction false} SkippedKeyReported(m: Entries, v: Value)
    requires !v.Keyword?
    ensures multiset(SkippedKeys(m))[NonKeywordKey(v)] == multiset(Keys(m))[v]
  {
    if m != [] {
      SkippedKeyReported(m[1..], v);
      var k := m[0].0;
      var here := if k.Keyword? then [] else [NonKeywordKey(k)];
      assert multiset(Keys(m)) == multiset([k]) + multiset(Keys(m[1..]));
      assert multiset(SkippedKeys(m)) == multiset(here) + multiset(SkippedKeys(m[1..]));
    }
  }

  /** Reports about keys never take the form of a non-map report. */
  lemma {:induction false} SkippedKeysAreKeys(m: Entries, n: nat)
    ensures multiset(SkippedKeys(m))[NonMap(n)] == 0
  {
    if m != [] {
      SkippedKeysAreKeys(m[1..], n);
    }
  }

  /** The records one line contributes: its value if that is a map, else none. */
  function Kept(line: LineOutcome): seq<Entries> {
    if line.Parsed? && line.value.Map? then [line.value.entries] else []
  }

  /** The records kept from the first `n` lines, in line order. */
  function Records(lines: seq<LineOutcome>, n: nat): seq<Entries>
    requires n <= |lines|
  {
    if n == 0 then [] else Records(lines, n - 1) + Kept(lines[n - 1])
  }

  /** The diagnostics line number `n` gives rise to. */
  function LineLog(line: LineOutcome, n: nat): seq<Diagnostic> {
    if !line.Parsed? then []
    else if line.value.Map? then SkippedKeys(line.value.entries)
    else [NonMap(n)]
  }

  /** The diagnostics written while ingesting the first `n` lines, in line order. */
  function Log(lines: seq<LineOutcome>, n: nat): seq<Diagnostic>
    requires n <= |lines|
  {
    if n == 0 then [] else Log(lines, n - 1) + LineLog(lines[n - 1], n - 1)
  }

  /** The column names one line contributes: the keyword keys of its map, if it holds one. */
  function KeptNames(line: LineOutcome): seq<string> {
    if line.Parsed? && line.value.Map? then KeywordNames(line.value.entries) else []
  }

  /** Every keyword key name of every record. */
  function ColumnSet(records: seq<Entries>): set<string> {
    set i, k | 0 <= i < |records| && k in KeywordNames(records[i]) :: k
  }

  /** None of the first `n` lines is malformed. */
  predicate WellFormedUpTo(lines: seq<LineOutcome>, n: nat)
    requires n <= |lines|
  {
    n == 0 || (WellFormedUpTo(lines, n - 1) && !lines[n - 1].Malformed?)
  }

  /** The recursive form says that no line before `n` is malformed. */
  lemma {:induction false} WellFormedUpToAll(lines: seq<LineOutcome>, n: nat)
    requires n <= |lines|
    ensures WellFormedUpTo(lines, n) <==> forall i :: 0 <= i < n ==> !lines[i].Malformed?
  {
    if n > 0 {
      WellFormedUpToAll(lines, n - 1);
    }
  }

  /** Line `n` is the first malformed line. */
  predicate FirstMalformed(lines: seq<LineOutcome>, n: nat) {
    n < |lines| && lines[n].Malformed? && WellFormedUpTo(lines, n)
  }

  /** `BTreeMap::get`: the value of the first entry whose key equals `key`. */
  function Lookup(m: Entries, key: Value): (r: Option<Value>)
    ensures r.None? <==> forall j :: 0 <= j < |m| ==> m[j].0 != key
    ensures r.Some? ==> exists j :: 0 <= j < |m| && m[j] == (key, r.value)
  {
    if m == [] then None
    else if m[0].0 == key then Some(m[0].1)
    else Lookup(m[1..], key)
  }

  /** The field for one column of one record. */
  function Cell(m: Entries, col: string): string {
    match Lookup(m, Keyword(col))
    case Some(v) => Render(v)
    case None => ""
  }

  /** One field per column, in column order. */
  predicate IsRow(row: seq<string>, columns: seq<string>, m: Entries) {
    |row| == |columns| && forall j :: 0 <= j < |columns| ==> row[j] == Cell(m, columns[j])
  }

  /** The header, then one row per record in record order. */
  predicate IsTable(table: seq<seq<string>>, columns: seq<string>, records: seq<Entries>) {
    |table| == |records| + 1 && table[0] == columns &&
    forall i :: 0 <= i < |records| ==> IsRow(table[i + 1], columns, records[i])
  }

  /** The table for the given lines: its header is the column set in ascending order. */
  predicate Tabulates(table: seq<seq<string>>, lines: seq<LineOutcome>) {
    var records := Records(lines, |lines|);
    |table| >= 1 && StrictlySorted(table[0]) && Elements(table[0]) == ColumnSet(records) &&
    IsTable(table, table[0], records)
  }

  /** Adding one record adds its keyword names to the column set. */
  lemma ColumnSetStep(records: seq<Entries>, m: Entries)
    ensures ColumnSet(records + [m]) == ColumnSet(records) + Elements(KeywordNames(m))
  {
    var grown := records + [m];
    forall k | k in ColumnSet(grown)
      ensures k in ColumnSet(records) + Elements(KeywordNames(m))
    {
      var i :| 0 <= i < |grown| && k in KeywordNames(grown[i]);
      if i < |records| {
        assert records[i] == grown[i];
      }
    }
    forall k | k in ColumnSet(records) + Elements(KeywordNames(m))
      ensures k in ColumnSet(grown)
    {
      if k in ColumnSet(records) {
        var i :| 0 <= i < |records| && k in KeywordNames(records[i]);
        assert grown[i] == records[i];
      } else {
        assert grown[|records|] == m;
      }
    }
  }

  /** Ingesting one more line grows the column set by that line's keyword names. */
  lemma ColumnSetLine(records: seq<Entries>, line: LineOutcome)
    ensures ColumnSet(records + Kept(line)) == ColumnSet(records) + Elements(KeptNames(line))
  {
    if line.Parsed? && line.value.Map? {
      ColumnSetStep(records, line.value.entries);
    } else {
      assert records + Kept(line) == records;
      assert Elements(KeptNames(line)) == {};
    }
  }

  /**
   * What `Ingest` holds after the first `n` lines: none was malformed, and
   * the records, the ascending column set and the diagnostics are theirs.
   */
  predicate Accumulated(lines: seq<LineOutcome>, n: nat, records: seq<Entries>, columns: seq<string>, log: seq<Diagnostic>)
    requires n <= |lines|
  {
    WellFormedUpTo(lines, n) && records == Records(lines, n) && log == Log(lines, n) &&
    StrictlySorted(columns) && Elements(columns) == ColumnSet(records)
  }

  /** One more well-formed line keeps what `Ingest` accumulates equal to its specification. */
  lemma IngestStep(lines: seq<LineOutcome>, idx: nat, records: seq<Entries>, columns: seq<string>, log: seq<Diagnostic>,
                    kept: seq<Entries>, names: seq<string>, diags: seq<Diagnostic>)
    requires idx < |lines| && !lines[idx].Malformed? && Accumulated(lines, idx, records, columns, log)
    requires kept == Kept(lines[idx]) && names == KeptNames(lines[idx]) && diags == LineLog(lines[idx], idx)
    ensures Accumulated(lines, idx + 1, records + kept, InsertAll(columns, names), log + diags)
  {
    ColumnSetLine(records, lines[idx]);
  }

  /** Column names of consecutive entries: those of the first part, then those of the second. */
  lemma {:induction false} KeywordNamesAppend(a: Entries, b: Entries)
    ensures KeywordNames(a + b) == KeywordNames(a) + KeywordNames(b)
  {
    if a == [] {
      assert a + b == b;
    } else {
      assert (a + b)[1..] == a[1..] + b;
      KeywordNamesAppend(a[1..], b);
    }
  }

  /** Reports for consecutive entries: those of the first part, then those of the second. */
  lemma {:induction false} SkippedKeysAppend(a: Entries, b: Entries)
    ensures SkippedKeys(a + b) == SkippedKeys(a) + SkippedKeys(b)
  {
    if a == [] {
      assert a + b == b;
    } else {
      assert (a + b)[1..] == a[1..] + b;
      SkippedKeysAppend(a[1..], b);
    }
  }

  /**
   * The `filter_map` over a map's keys: the names of its keyword keys, and a
   * diagnostic for each other key, both in entry order.
   */
  method SortKeys(m: Entries) returns (names: seq<string>, skipped: seq<Diagnostic>)
    ensures names == KeywordNames(m) && skipped == SkippedKeys(m)
  {
    names, skipped := [], [];
    for i := 0 to |m|
      invariant names == KeywordNames(m[..i]) && skipped == SkippedKeys(m[..i])
    {
      assert m[..i + 1] == m[..i] + [m[i]];
      KeywordNamesAppend(m[..i], [m[i]]);
      SkippedKeysAppend(m[..i], [m[i]]);
      var key := m[i].0;
      if key.Keyword? {
        names := names + [key.name];
      } else {
        skipped := skipped + [NonKeywordKey(key)];
      }
    }
    assert m[..|m|] == m;
  }

  /**
   * One well-formed line: a map yields itself as a record and its keyword
   * names as columns; any other value is reported; a blank line does nothing.
   */
  method IngestLine(line: LineOutcome, idx: nat) returns (kept: seq<Entries>, names: seq<string>, diags: seq<Diagnostic>)
    requires !line.Malformed?
    ensures kept == Kept(line) && names == KeptNames(line) && diags == LineLog(line, idx)
  {
    kept, names, diags := [], [], [];
    if line.Parsed? {
      if line.value.Map? {
        var m := line.value.entries;
        names, diags := SortKeys(m);
        kept := [m];
      } else {
        diags := [NonMap(idx)];
      }
    }
  }

  /**
   * The first loop of `run`: keep the maps, add their keyword keys to the
   * column set, and stop at the first malformed line.
   */
  method Ingest(lines: seq<LineOutcome>) returns (r: Result<Ingested, ParseError>, log: seq<Diagnostic>)
    ensures r.Failure? ==>
      FirstMalformed(lines, r.error.linenum) && r.error.cause == lines[r.error.linenum].cause &&
      log == Log(lines, r.error.linenum)
    ensures r.Success? ==> Accumulated(lines, |lines|, r.value.records, r.value.columns, log)
  {
    var records: seq<Entries> := [];
    var columns: seq<string> := [];
    log := [];
    var idx := 0;
    while idx < |lines|
      invariant idx <= |lines| && Accumulated(lines, idx, records, columns, log)
    {
      if lines[idx].Malformed? {
        return Failure(ParseError(idx, lines[idx].cause)), log;
      }
      var kept, names, diags := IngestLine(lines[idx], idx);
      IngestStep(lines, idx, records, columns, log, kept, names, diags);
      log := log + diags;
      columns := InsertAll(columns, names);
      records := records + kept;
      idx := idx + 1;
    }
    r := Success(Ingested(records, columns));
  }

  /**
   * The second half of `run`: the header, then for each record one field per
   * column, holding the rendered value under that keyword or nothing.
   */
  method Emit(columns: seq<string>, records: seq<Entries>) returns (table: seq<seq<string>>)
    ensures IsTable(table, columns, records)
  {
    var header: seq<string> := [];
    for j := 0 to |columns|
      invariant header == columns[..j]
    {
      header := header + [columns[j]];
    }
    table := [header];
    for i := 0 to |records|
      invariant |table| == i + 1 && table[0] == columns
      invariant forall n :: 0 <= n < i ==> IsRow(table[n + 1], columns, records[n])
    {
      var row: seq<string> := [];
      for j := 0 to |columns|
        invariant |row| == j
        invariant forall n :: 0 <= n < j ==> row[n] == Cell(records[i], columns[n])
      {
        var field := match Lookup(records[i], Keyword(columns[j]))
          case Some(v) => Render(v)
          case None => "";
        row := row + [field];
      }
      table := table + [row];
    }
  }

  /**
   * A whole run: ingestion, then emission. A malformed line fails the run
   * with its number and no table at all; otherwise the table is the column
   * set in ascending order followed by one row per map, in line order.
   */
  method Run(lines: seq<LineOutcome>) returns (r: Result<seq<seq<string>>, ParseError>, log: seq<Diagnostic>)
    ensures r.Failure? <==> exists i :: 0 <= i < |lines| && lines[i].Malformed?
    ensures r.Failure? ==>
      FirstMalformed(lines, r.error.linenum) && r.error.cause == lines[r.error.linenum].cause &&
      log == Log(lines, r.error.linenum)
    ensures r.Success? ==> log == Log(lines, |lines|) && Tabulates(r.value, lines)
  {
    var ingested;
    ingested, log := Ingest(lines);
    match ingested
    case Failure(e) =>
      WellFormedUpToAll(lines, e.linenum);
      r := Failure(e);
    case Success(acc) =>
      WellFormedUpToAll(lines, |lines|);
      var table := Emit(acc.columns, acc.records);
      r := Success(table);
  }

  /** The records of a prefix depend on nothing after it. */
  lemma {:induction false} RecordsOfPrefix(a: seq<LineOutcome>, b: seq<LineOutcome>, n: nat)
    requires n <= |a| && n <= |b| && a[..n] == b[..n]
    ensures Records(a, n) == Records(b, n)
  {
    if n > 0 {
      assert a[..n - 1] == b[..n - 1] && a[n - 1] == a[..n][n - 1] == b[..n][n - 1] == b[n - 1];
      RecordsOfPrefix(a, b, n - 1);
    }
  }

  /** The records of a first batch followed by some lines of a second. */
  lemma {:induction false} RecordsAppendUpTo(a: seq<LineOutcome>, b: seq<LineOutcome>, k: nat)
    requires k <= |b|
    ensures Records(a + b, |a| + k) == Records(a, |a|) + Records(b, k)
  {
    if k == 0 {
      assert (a + b)[..|a|] == a[..|a|];
      RecordsOfPrefix(a + b, a, |a|);
    } else {
      RecordsAppendUpTo(a, b, k - 1);
      assert (a + b)[|a| + k - 1] == b[k - 1];
    }
  }

  /** Ingesting lines one batch after another keeps the records of each batch, in order. */
  lemma RecordsAppend(a: seq<LineOutcome>, b: seq<LineOutcome>)
    ensures Records(a + b, |a + b|) == Records(a, |a|) + Records(b, |b|)
  {
    RecordsAppendUpTo(a, b, |b|);
  }

  /** The records are exactly the maps among the parsed lines, including maps with keys that are not keywords. */
  lemma {:induction false} RecordsAreTheMaps(lines: seq<LineOutcome>, n: nat, m: Entries)
    requires n <= |lines|
    ensures m in Records(lines, n) <==> exists j :: 0 <= j < n && lines[j] == Parsed(Map(m))
  {
    if n > 0 {
      RecordsAreTheMaps(lines, n - 1, m);
    }
  }

  /** A last line that is not a map adds no record. */
  lemma RecordsSkipLast(before: seq<LineOutcome>, line: LineOutcome)
    requires Kept(line) == []
    ensures Records(before + [line], |before| + 1) == Records(before, |before|)
  {
    assert (before + [line])[..|before|] == before[..|before|];
    RecordsOfPrefix(before + [line], before, |before|);
  }

  /** A line that is not a map (a blank line or any other value) contributes no record. */
  lemma NonMapLineIgnored(lines: seq<LineOutcome>, j: nat)
    requires j < |lines| && !(lines[j].Parsed? && lines[j].value.Map?)
    ensures var rest := lines[..j] + lines[j + 1..]; Records(rest, |rest|) == Records(lines, |lines|)
  {
    var before, after := lines[..j], lines[j + 1..];
    var init := before + [lines[j]];
    assert lines == init + after;
    RecordsAppend(init, after);
    RecordsSkipLast(before, lines[j]);
    RecordsAppend(before, after);
  }

  /** A column name is in the column set exactly when some record has that keyword as a key. */
  lemma ColumnSetExact(records: seq<Entries>, k: string)
    ensures k in ColumnSet(records) <==>
      exists i, j :: 0 <= i < |records| && 0 <= j < |records[i]| && records[i][j].0 == Keyword(k)
  {
    if k in ColumnSet(records) {
      var i :| 0 <= i < |records| && k in KeywordNames(records[i]);
      KeywordNamesExact(records[i], k);
    }
    if exists i, j :: 0 <= i < |records| && 0 <= j < |records[i]| && records[i][j].0 == Keyword(k) {
      var i, j :| 0 <= i < |records| && 0 <= j < |records[i]| && records[i][j].0 == Keyword(k);
      KeywordNamesExact(records[i], k);
    }
  }

  /**
   * Every line whose value is not a map is reported exactly once, by its
   * number, and no other line is reported that way.
   */
  lemma {:induction false} NonMapReportedOnce(lines: seq<LineOutcome>, p: nat, n: nat)
    requires p <= |lines|
    ensures multiset(Log(lines, p))[NonMap(n)] ==
      if n < p && lines[n].Parsed? && !lines[n].value.Map? then 1 else 0
  {
    if p > 0 {
      var line := lines[p - 1];
      var here := LineLog(line, p - 1);
      assert multiset(here)[NonMap(n)] ==
        if n == p - 1 && line.Parsed? && !line.value.Map? then 1 else 0 by {
        if line.Parsed? && line.value.Map? {
          SkippedKeysAreKeys(line.value.entries, n);
        }
      }
      var earlier := Log(lines, p - 1);
      NonMapReportedOnce(lines, p - 1, n);
      assert multiset(earlier + here) == multiset(earlier) + multiset(here);
    }
  }

  /** A cell is empty when the record has no such keyword key, and is that key's rendered value when it has one. */
  lemma CellContents(m: Entries, col: string, v: Value)
    ensures (forall j :: 0 <= j < |m| ==> m[j].0 != Keyword(col)) ==> Cell(m, col) == ""
    ensures (forall i, j :: 0 <= i < j < |m| ==> m[i].0 != m[j].0) && (Keyword(col), v) in m ==>
      Cell(m, col) == Render(v)
  {
    if (forall i, j :: 0 <= i < j < |m| ==> m[i].0 != m[j].0) && (Keyword(col), v) in m {
      var i :| 0 <= i < |m| && m[i] == (Keyword(col), v);
      var w := Lookup(m, Keyword(col)).value;
      var j :| 0 <= j < |m| && m[j] == (Keyword(col), w);
      assert i == j;
    }
  }

  /**
   * The table for a given input is unique: the header is fixed by the set of
   * keyword keys whatever order they were met in, and the rows by the header.
   */
  lemma TabulationUnique(t1: seq<seq<string>>, t2: seq<seq<string>>, lines: seq<LineOutcome>)
    requires Tabulates(t1, lines) && Tabulates(t2, lines)
    ensures t1 == t2
  {
    SortedUnique(t1[0], t2[0]);
    forall i | 0 <= i < |t1|
      ensures t1[i] == t2[i]
    {
      if i > 0 {
        assert IsRow(t1[(i - 1) + 1], t1[0], Records(lines, |lines|)[i - 1]);
        assert IsRow(t2[(i - 1) + 1], t2[0], Records(lines, |lines|)[i - 1]);
      }
    }
  }

  /** The column set of the two example records. */
  lemma TwoMapsColumns(m1: Entries, m2: Entries)
    requires m1 == [(Keyword("a"), Integer(1)), (Keyword("b"), Integer(2))]
    requires m2 == [(Keyword("a"), Integer(3))]
    ensures ColumnSet([m1, m2]) == Elements(["a", "b"])
  {
    assert m1[1..] == [(Keyword("b"), Integer(2))] && m1[1..][1..] == [];
    assert KeywordNames(m1[1..][1..]) == [];
    assert KeywordNames(m1[1..]) == ["b"];
    assert KeywordNames(m1) == ["a", "b"];
    assert m2[1..] == [];
    assert KeywordNames(m2) == ["a"];
    ColumnSetStep([m1], m2);
    ColumnSetStep([], m1);
    assert [] + [m1] == [m1] && [m1] + [m2] == [m1, m2];
    assert Elements(["a"]) == {"a"} && Elements(["a", "b"]) == {"a", "b"};
  }

  /** The cells of the two example records. */
  lemma TwoMapsCells(m1: Entries, m2: Entries)
    requires m1 == [(Keyword("a"), Integer(1)), (Keyword("b"), Integer(2))]
    requires m2 == [(Keyword("a"), Integer(3))]
    ensures Cell(m1, "a") == "1" && Cell(m1, "b") == "2"
    ensures Cell(m2, "a") == "3" && Cell(m2, "b") == ""
  {
    assert Keyword("a") != Keyword("b") by {
      assert "a"[0] != "b"[0];
    }
    assert m1[1..] == [(Keyword("b"), Integer(2))];
    assert m2[1..] == [];
    assert Lookup(m1, Keyword("a")) == Some(Integer(1));
    assert Lookup(m1, Keyword("b")) == Some(Integer(2));
    assert Lookup(m2, Keyword("a")) == Some(Integer(3));
    assert Lookup(m2, Keyword("b")) == None;
    assert Decimal.NatToString(1) == "1";
    assert Decimal.NatToString(2) == "2";
    assert Decimal.NatToString(3) == "3";
  }

  /** The rows of the two example records under the header `a b`. */
  lemma TwoMapsRows(m1: Entries, m2: Entries, row1: seq<string>, row2: seq<string>)
    requires m1 == [(Keyword("a"), Integer(1)), (Keyword("b"), Integer(2))]
    requires m2 == [(Keyword("a"), Integer(3))]
    requires IsRow(row1, ["a", "b"], m1) && IsRow(row2, ["a", "b"], m2)
    ensures row1 == ["1", "2"] && row2 == ["3", ""]
  {
    TwoMapsCells(m1, m2);
    assert row1[0] == Cell(m1, "a") && row1[1] == Cell(m1, "b");
    assert row1 == [row1[0], row1[1]];
    assert row2[0] == Cell(m2, "a") && row2[1] == Cell(m2, "b");
    assert row2 == [row2[0], row2[1]];
  }

  /** `{:a 1 :b 2}` then `{:a 3}` give the header `a b` and the rows `1 2` and `3` with an empty field. */
  lemma TwoMapsExample(m1: Entries, m2: Entries, table: seq<seq<string>>)
    requires m1 == [(Keyword("a"), Integer(1)), (Keyword("b"), Integer(2))]
    requires m2 == [(Keyword("a"), Integer(3))]
    requires Tabulates(table, [Parsed(Map(m1)), Parsed(Map(m2))])
    ensures table == [["a", "b"], ["1", "2"], ["3", ""]]
  {
    var lines := [Parsed(Map(m1)), Parsed(Map(m2))];
    var records := Records(lines, |lines|);
    assert Records(lines, 1) == [m1];
    assert records == [m1, m2];
    var header := table[0];
    assert header == ["a", "b"] by {
      TwoMapsColumns(m1, m2);
      assert Less("a", "b");
      SortedUnique(header, ["a", "b"]);
    }
    var row1, row2 := table[1], table[2];
    assert IsRow(row1, header, m1) && IsRow(row2, header, m2) by {
      assert IsRow(table[0 + 1], header, records[0]);
      assert IsRow(table[1 + 1], header, records[1]);
    }
    TwoMapsRows(m1, m2, row1, row2);
    assert table == [table[0], table[1], table[2]];
  }

  /** A line holding the vector `[1 2 3]` gives no row and an empty header, and is reported once. */
  lemma VectorLineExample(table: seq<seq<string>>)
    requires Tabulates(table, [Parsed(Vector([Integer(1), Integer(2), Integer(3)]))])
    ensures table == [[]]
    ensures Log([Parsed(Vector([Integer(1), Integer(2), Integer(3)]))], 1) == [NonMap(0)]
  {
    NonEmptyHasElement(table[0]);
  }

  /** The text of a `ParseError`: line number, the parser's offsets, its message, and a trailing space. */
  function ErrorText(e: ParseError): string {
    Decimal.NatToString(e.linenum) + " (" + Decimal.NatToString(e.cause.lo) + ", " +
    Decimal.NatToString(e.cause.hi) + "): " + e.cause.message + " "
  }

  /** The error text opens with the line number, which reads back from the digits before the first space. */
  lemma ErrorTextNamesLine(e: ParseError)
    ensures var t := ErrorText(e); var d := |Decimal.NatToString(e.linenum)|;
      d < |t| && Decimal.AllDigits(t[..d]) && Decimal.ParseNat(t[..d]) == e.linenum &&
      ' ' !in t[..d] && t[d] == ' ' && t[|t| - 1] == ' '
  {
    var t := ErrorText(e);
    var digits := Decimal.NatToString(e.linenum);
    assert t[..|digits|] == digits;
    Decimal.ParseNatOfNatToString(e.linenum);
  }

  /** The text of a diagnostic line. */
  function DiagnosticText(d: Diagnostic): string {
    match d
    case NonKeywordKey(key) => "Skipping non keyword key: " + Render(key)
    case NonMap(line) => "Skipping non map on line " + Decimal.NatToString(line)
  }

  /** A non-map report ends with the line number, which reads back from the text. */
  lemma NonMapTextNamesLine(n: nat)
    ensures var t := DiagnosticText(NonMap(n)); var p := |"Skipping non map on line "|;
      p < |t| && Decimal.AllDigits(t[p..]) && Decimal.ParseNat(t[p..]) == n
  {
    var t := DiagnosticText(NonMap(n));
    assert t[|"Skipping non map on line "|..] == Decimal.NatToString(n);
    Decimal.ParseNatOfNatToString(n);
  }
}
