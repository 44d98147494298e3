/**
  The two-line tables that `jstat` prints: a header line of column names and
  one line of values, and the lookup of a value by its column's name
  (`values[header.index(name)]` followed by `float(...)`).
*/
module Tables {
  import opened Wrappers
  import opened Text
  import opened Numbers

  /** Names from line 1 and values from line 2, split on whitespace; the lengths need not agree. */
  datatype Table = Table(header: seq<string>, values: seq<string>)

  /** Why a table could not give a number: too few lines, or a missing, absent or non-numeric field. */
  datatype ParseError = TooFewLines | BadField

  /** Python `list.index`: the position of the first occurrence of `x`, or nothing when it is absent. */
  function IndexOf<T(==)>(xs: seq<T>, x: T): (r: Option<nat>)
    ensures r.None? <==> x !in xs
    ensures r.Some? ==> r.value < |xs| && xs[r.value] == x && x !in xs[..r.value]
  {
    if xs == [] then None
    else if xs[0] == x then Some(0)
    else
      match IndexOf(xs[1..], x)
      case None => None
      case Some(i) =>
        assert xs[..i + 1] == [xs[0]] + xs[1..][..i];
        Some(i + 1)
  }

  /** Lines 1 and 2 of the (already stripped) output, each split on whitespace. */
  function ParseTable(output: string): (r: Result<Table, ParseError>)
  {
    var lines := SplitLines(output);
    if |lines| < 2 then Failure(TooFewLines)
    else Success(Table(Split(lines[0]), Split(lines[1])))
  }

  /**
    The number in the column called `name`: the column is the first one with
    that name, and the lookup fails when the name is absent, when the value row
    is too short to reach it, or when the field is not a number.
  */
  function Lookup(t: Table, name: string): (r: Option<real>)
  {
    match IndexOf(t.header, name)
    case None => None
    case Some(i) => if i < |t.values| then ParseReal(t.values[i]) else None
  }

  /**
    Column `name` of the table `header`/`values` is at `i` and reads as `x`: the
    name first occurs at `i`, and the field below it is the decimal text of `x`.
  */
  predicate FieldAt(header: seq<string>, values: seq<string>, name: string, i: nat, x: real)
  {
    i < |header| && header[i] == name && name !in header[..i]
    && i < |values| && ParseReal(values[i]) == Some(x)
  }

  /** A header row and a non-empty value row of words, which print as a two-line table. */
  predicate Printable(header: seq<string>, values: seq<string>)
  {
    && (forall k :: 0 <= k < |header| ==> IsWord(header[k]))
    && (forall k :: 0 <= k < |values| ==> IsWord(values[k]))
    && values != []
  }

  /**
    How the two lines of a table are spaced: the runs of blanks between the
    header's names and after the last of them, and the runs before the first
    value and between the values. Right-aligned columns, as `jstat` prints
    them, give runs of several blanks.
  */
  datatype Layout = Layout(headerGaps: seq<string>, headerEnd: string, valueStart: string, valueGaps: seq<string>)

  /** `layout` can space out these rows: a non-empty run of blanks between neighbours, blank padding. */
  predicate Fits(layout: Layout, header: seq<string>, values: seq<string>)
  {
    && |header| <= |layout.headerGaps| + 1 && |values| <= |layout.valueGaps| + 1
    && Gaps(layout.headerGaps) && Gaps(layout.valueGaps)
    && IsBlank(layout.headerEnd) && IsBlank(layout.valueStart)
  }

  /** The stripped output of `jstat`: the header line, a newline, and the value line, spaced by `layout`. */
  function AlignedText(header: seq<string>, values: seq<string>, layout: Layout): (r: string)
    requires |header| <= |layout.headerGaps| + 1 && |values| <= |layout.valueGaps| + 1
  {
    (Spaced(header, layout.headerGaps) + layout.headerEnd) + "\n" + (layout.valueStart + Spaced(values, layout.valueGaps))
  }

  /** Single spaces between the columns and no padding. */
  function Plain(header: seq<string>, values: seq<string>): (r: Layout)
  {
    Layout(seq(|header|, _ => " "), "", "", seq(|values|, _ => " "))
  }

  /** A table printed with single spaces: names, a newline, values. */
  function TableText(header: seq<string>, values: seq<string>): (r: string)
  {
    AlignedText(header, values, Plain(header, values))
  }

  // ---------------------------------------------------------------------
  // Lemmas

  lemma PlainFits(header: seq<string>, values: seq<string>)
    ensures Fits(Plain(header, values), header, values)
  {
    assert IsBlank(" ");
  }

  /** A header line: its names split back out, and it holds no line boundary. */
  lemma HeaderLine(ws: seq<string>, gaps: seq<string>, end: string)
    requires |ws| <= |gaps| + 1 && (forall k :: 0 <= k < |ws| ==> IsWord(ws[k])) && Gaps(gaps)
    requires IsBlank(end)
    ensures var l := Spaced(ws, gaps) + end; IsLine(l) && Split(l) == ws
  {
    SpacedLine(ws, gaps);
    ConcatIsLine(Spaced(ws, gaps), end);
    SplitSpaced(ws, gaps);
    SplitAppendSpace(Spaced(ws, gaps), end);
  }

  /** A value line with at least one value: its values split back out, and it is one non-empty line. */
  lemma ValueLine(start: string, ws: seq<string>, gaps: seq<string>)
    requires |ws| <= |gaps| + 1 && (forall k :: 0 <= k < |ws| ==> IsWord(ws[k])) && Gaps(gaps)
    requires IsBlank(start) && ws != []
    ensures var l := start + Spaced(ws, gaps); IsLine(l) && l != [] && Split(l) == ws
  {
    SpacedLine(ws, gaps);
    ConcatIsLine(start, Spaced(ws, gaps));
    SplitSpaced(ws, gaps);
    SplitSkipsSpace(start, Spaced(ws, gaps));
  }

  /** Reading back a table spaced by any layout gives the same names and values. */
  lemma ParseAligned(header: seq<string>, values: seq<string>, layout: Layout)
    requires Printable(header, values) && Fits(layout, header, values)
    ensures ParseTable(AlignedText(header, values, layout)) == Success(Table(header, values))
  {
    var h := Spaced(header, layout.headerGaps) + layout.headerEnd;
    var v := layout.valueStart + Spaced(values, layout.valueGaps);
    HeaderLine(header, layout.headerGaps, layout.headerEnd);
    ValueLine(layout.valueStart, values, layout.valueGaps);
    SplitLinesCons(h, v);
    SplitLinesOne(v);
  }

  /**
    The raw output of `jstat`, with blanks before its header and anything blank
    after its value line (the final newline), strips to the aligned table.
  */
  lemma StripAligned(lead: string, header: seq<string>, values: seq<string>, layout: Layout, trail: string)
    requires header != [] && Printable(header, values) && Fits(layout, header, values)
    requires AllSpace(lead) && AllSpace(trail)
    ensures Strip(lead + AlignedText(header, values, layout) + trail) == AlignedText(header, values, layout)
  {
    var x := AlignedText(header, values, layout);
    var h, v := Spaced(header, layout.headerGaps), Spaced(values, layout.valueGaps);
    SpacedLine(header, layout.headerGaps);
    SpacedLine(values, layout.valueGaps);
    assert x[0] == h[0];
    assert x[|x| - 1] == v[|v| - 1];
    StripAppendSpace(lead + x, trail);
    TrimLeftSpace(lead, x);
    assert TrimLeft(x) == x;
    assert TrimRight(x) == x;
  }

  /** Text with no line boundary (nothing, or a header alone) is too short to be a table. */
  lemma ParseTableOneLine(output: string)
    requires IsLine(output)
    ensures ParseTable(output) == Failure(TooFewLines)
  {
    if output != [] {
      SplitLinesOne(output);
    }
  }

  /**
    A lookup succeeds exactly when the first column of that name has a numeric
    field below it in the value row, and then gives that field's number.
  */
  lemma LookupMeaning(t: Table, name: string)
    ensures Lookup(t, name).Some? <==>
              exists i :: 0 <= i < |t.header| && t.header[i] == name && name !in t.header[..i]
                          && i < |t.values| && ParseReal(t.values[i]).Some?
    ensures Lookup(t, name).Some? ==>
              exists i :: 0 <= i < |t.header| && t.header[i] == name && name !in t.header[..i]
                          && i < |t.values| && ParseReal(t.values[i]) == Lookup(t, name)
  {
    var r := Lookup(t, name);
    match IndexOf(t.header, name)
    case None =>
    case Some(i) =>
      if i < |t.values| {
        assert r.Some? ==> exists j :: 0 <= j < |t.header| && t.header[j] == name && name !in t.header[..j]
                                       && j < |t.values| && ParseReal(t.values[j]) == r;
      }
  }

  /** A column whose name is absent from the header has no value, whatever the value row holds. */
  lemma LookupAbsent(t: Table, name: string)
    requires name !in t.header
    ensures Lookup(t, name) == None
  {
  }

  /** A first occurrence at or past the end of the value row has no value. */
  lemma LookupPastRow(t: Table, name: string, i: nat)
    requires i < |t.header| && t.header[i] == name && name !in t.header[..i]
    requires i >= |t.values|
    ensures Lookup(t, name) == None
  {
  }

  /** A later column of the same name is never consulted. */
  lemma {:induction false} LookupFirstOccurrence(before: seq<string>, name: string, after: seq<string>, values: seq<string>)
    requires name !in before && |before| < |values|
    ensures Lookup(Table(before + [name] + after, values), name) == ParseReal(values[|before|])
  {
    var h := before + [name] + after;
    var i := |before|;
    assert h[i] == name && h[..i] == before;
    assert IndexOf(h, name) == Some(i);
  }
}
