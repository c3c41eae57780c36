/**
 * The EDN value printer: the `Display` implementation of `EdnPrinter`, which
 * turns any EDN value into the text of one table cell.
 */
module Printer {
  import Decimal

  /**
   * An EDN value. The order of a Map's entries and of a Set's elements is the
   * order in which the EDN library hands them over; the model takes it as given.
   * A Float carries the text Rust's float formatting produced for it.
   */
  datatype Value =
    | Nil
    | Boolean(b: bool)
    | String(s: string)
    | Char(c: char)
    | Symbol(name: string)
    | Keyword(name: string)
    | Integer(i: int)
    | Float(text: string)
    | List(items: seq<Value>)
    | Vector(items: seq<Value>)
    | Map(entries: seq<(Value, Value)>)
    | Set(items: seq<Value>)
    | Tagged(tag: string, inner: Value)

  /** Reference definition: the parts with exactly one comma between neighbours. */
  function Join(parts: seq<string>): string
  {
    if |parts| == 0 then ""
    else if |parts| == 1 then parts[0]
    else parts[0] + "," + Join(parts[1..])
  }

  /**
   * The printer's own loop: a fold that carries an "is first" flag and writes
   * a comma before every part except the first.
   */
  function FoldJoin(parts: seq<string>, isFirst: bool): string
  {
    if parts == [] then ""
    else (if isFirst then "" else ",") + parts[0] + FoldJoin(parts[1..], false)
  }

  /** Cuts a string at every comma. */
  function Split(s: string): (parts: seq<string>)
    ensures |parts| >= 1
  {
    if s == [] then [""]
    else if s[0] == ',' then [""] + Split(s[1..])
    else var rest := Split(s[1..]); [[s[0]] + rest[0]] + rest[1..]
  }

  /** The rendering of one value. */
  function Render(v: Value): string
    decreases v
  {
    match v
    case Nil => "nil"
    case Boolean(b) => if b then "true" else "false"
    case String(s) => s
    case Char(c) => [c]
    case Symbol(name) => name
    case Keyword(name) => name
    case Integer(i) => Decimal.IntToString(i)
    case Float(text) => text
    case List(items) =>
      "(" + FoldJoin(seq(|items|, k requires 0 <= k < |items| => Render(items[k])), true) + ")"
    case Vector(items) =>
      "[" + FoldJoin(seq(|items|, k requires 0 <= k < |items| => Render(items[k])), true) + "]"
    case Map(entries) =>
      "{" + FoldJoin(seq(|entries|, k requires 0 <= k < |entries| =>
                           Render(entries[k].0) + " " + Render(entries[k].1)), true) + "}"
    case Set(items) =>
      "#{" + FoldJoin(seq(|items|, k requires 0 <= k < |items| => Render(items[k])), true) + "}"
    case Tagged(tag, inner) => "#" + tag + " " + Render(inner)
  }

  /** The renderings of a sequence of values, in order. */
  function Renderings(items: seq<Value>): seq<string>
  {
    seq(|items|, k requires 0 <= k < |items| => Render(items[k]))
  }

  /** The renderings of map entries, key and value separated by one space. */
  function PairRenderings(entries: seq<(Value, Value)>): seq<string>
  {
    seq(|entries|, k requires 0 <= k < |entries| => Render(entries[k].0) + " " + Render(entries[k].1))
  }

  lemma {:induction false} FoldJoinLater(parts: seq<string>)
    ensures FoldJoin(parts, false) == if parts == [] then "" else "," + Join(parts)
  {
    if parts != [] {
      FoldJoinLater(parts[1..]);
    }
  }

  /** The flag-carrying fold writes exactly the comma-joined parts: no leading and no trailing comma. */
  lemma {:induction false} FoldJoinIsJoin(parts: seq<string>)
    ensures FoldJoin(parts, true) == Join(parts)
  {
    if parts != [] {
      FoldJoinLater(parts[1..]);
    }
  }

  lemma {:induction false} SplitNoComma(p: string)
    requires ',' !in p
    ensures Split(p) == [p]
  {
    if p != [] {
      SplitNoComma(p[1..]);
      assert [p[0]] + p[1..] == p;
    }
  }

  lemma {:induction false} SplitAfterPart(p: string, t: string)
    requires ',' !in p
    ensures Split(p + "," + t) == [p] + Split(t)
  {
    if p == [] {
      assert p + "," + t == [','] + t;
      assert (p + "," + t)[1..] == t;
    } else {
      var s := p + "," + t;
      assert s[0] == p[0] && s[1..] == p[1..] + "," + t;
      SplitAfterPart(p[1..], t);
      assert [p[0]] + p[1..] == p;
    }
  }

  /** Splitting at the commas recovers the parts when none of them holds a comma of its own. */
  lemma {:induction false} SplitJoin(parts: seq<string>)
    requires |parts| >= 1
    requires forall k :: 0 <= k < |parts| ==> ',' !in parts[k]
    ensures Split(Join(parts)) == parts
  {
    if |parts| == 1 {
      SplitNoComma(parts[0]);
    } else {
      SplitAfterPart(parts[0], Join(parts[1..]));
      SplitJoin(parts[1..]);
    }
  }

  /** An integer prints as its decimal text, which reads back to the same integer. */
  lemma RenderInteger(i: int)
    ensures var r := Render(Integer(i));
      r != [] && (r[0] == '-' <==> i < 0) && Decimal.AllDigits(r[1..]) &&
      (r[0] == '-' || Decimal.IsDigit(r[0])) && Decimal.ParseInt(r) == i
  {
    Decimal.IntToStringRoundTrip(i);
  }

  /** Lists, vectors and sets print their elements comma-joined inside their own delimiters. */
  lemma RenderSequences(items: seq<Value>)
    ensures Render(List(items)) == "(" + Join(Renderings(items)) + ")"
    ensures Render(Vector(items)) == "[" + Join(Renderings(items)) + "]"
    ensures Render(Set(items)) == "#{" + Join(Renderings(items)) + "}"
    ensures items == [] ==> Render(List(items)) == "()" && Render(Vector(items)) == "[]" && Render(Set(items)) == "#{}"
  {
    FoldJoinIsJoin(Renderings(items));
  }

  /** A map prints its `key value` pairs comma-joined inside braces. */
  lemma RenderMap(entries: seq<(Value, Value)>)
    ensures Render(Map(entries)) == "{" + Join(PairRenderings(entries)) + "}"
    ensures entries == [] ==> Render(Map(entries)) == "{}"
  {
    FoldJoinIsJoin(PairRenderings(entries));
  }

  /**
   * A tagged value prints as '#', the tag, one space and the inner value:
   * when the tag holds no space, both read back from the text.
   */
  lemma RenderTagged(tag: string, inner: Value)
    requires ' ' !in tag
    ensures var r := Render(Tagged(tag, inner)); var d := |tag| + 1;
      r[0] == '#' && d < |r| && r[d] == ' ' && ' ' !in r[1..d] && r[1..d] == tag && r[d + 1..] == Render(inner)
  {
  }

  /**
   * Between the delimiters of a non-empty list, vector or set there is exactly
   * one comma between neighbouring elements and none after the last: cutting
   * there gives back the element renderings when none of them holds a comma.
   */
  lemma ElementsRecoverable(items: seq<Value>)
    requires |items| >= 1
    requires forall k :: 0 <= k < |items| ==> ',' !in Render(items[k])
    ensures var r := Render(List(items)); |r| >= 2 && Split(r[1..|r| - 1]) == Renderings(items)
    ensures var r := Render(Vector(items)); |r| >= 2 && Split(r[1..|r| - 1]) == Renderings(items)
    ensures var r := Render(Set(items)); |r| >= 3 && Split(r[2..|r| - 1]) == Renderings(items)
  {
    var parts := Renderings(items);
    RenderSequences(items);
    SplitJoin(parts);
    var j := Join(parts);
    assert ("(" + j + ")")[1..|j| + 1] == j;
    assert ("[" + j + "]")[1..|j| + 1] == j;
    assert ("#{" + j + "}")[2..|j| + 2] == j;
  }

  /** Map entries likewise, when no key or value rendering holds a comma. */
  lemma EntriesRecoverable(entries: seq<(Value, Value)>)
    requires |entries| >= 1
    requires forall k :: 0 <= k < |entries| ==> ',' !in Render(entries[k].0) && ',' !in Render(entries[k].1)
    ensures var r := Render(Map(entries)); |r| >= 2 && Split(r[1..|r| - 1]) == PairRenderings(entries)
  {
    var parts := PairRenderings(entries);
    RenderMap(entries);
    forall k | 0 <= k < |parts|
      ensures ',' !in parts[k]
    {
      assert parts[k] == Render(entries[k].0) + " " + Render(entries[k].1);
    }
    SplitJoin(parts);
    var j := Join(parts);
    assert ("{" + j + "}")[1..|j| + 1] == j;
  }
}
