/**
  The figures each check derives from its (already stripped) command output:
  the old-generation ratio from `jstat -gc`, the heap totals from
  `jstat -gccapacity`, the loaded-class count from `jstat -class` and the
  thread count from `ps -L`.
*/
module Metrics {
  import opened Wrappers
  import opened Text
  import opened Numbers
  import opened Tables

  /** `part / whole * 100`, guarded to 0 when `whole` is 0. */
  function Percentage(part: real, whole: real): (r: real)
  {
    if whole != 0.0 then part / whole * 100.0 else 0.0
  }

  /** The `jstat -gc` figure: old-generation used over old-generation capacity, in percent. */
  function GcRatio(output: string): (r: Result<real, ParseError>)
  {
    match ParseTable(output)
    case Failure(e) => Failure(e)
    case Success(t) =>
      var oc, ou := Lookup(t, "OC"), Lookup(t, "OU");
      if oc.None? || ou.None? then Failure(BadField)
      else Success(Percentage(ou.value, oc.value))
  }

  /** The heap totals of `jstat -gccapacity`: the summed capacities and the summed used sizes. */
  datatype Heap = Heap(capacity: real, used: real) {

    /** The share of the heap in use, in percent; 0 for an empty heap. */
    function Percent(): (r: real) {
      Percentage(used, capacity)
    }
  }

  /** The region capacities the heap total adds up: survivor 0, survivor 1, eden, old. */
  const CapacityColumns: seq<string> := ["S0C", "S1C", "E", "O"]

  /** The used sizes of the same four regions. */
  const UsedColumns: seq<string> := ["S0U", "S1U", "EU", "OU"]

  function Sum(xs: seq<real>): (r: real)
  {
    if xs == [] then 0.0 else xs[0] + Sum(xs[1..])
  }

  /** The sum of the named columns, when every one of them can be read. */
  function Total(t: Table, names: seq<string>): (r: Option<real>)
  {
    if names == [] then Some(0.0)
    else
      var x, rest := Lookup(t, names[0]), Total(t, names[1..]);
      if x.None? || rest.None? then None else Some(x.value + rest.value)
  }

  /** The heap figures from `jstat -gccapacity`: every one of the eight columns must be readable. */
  function HeapReading(output: string): (r: Result<Heap, ParseError>)
  {
    match ParseTable(output)
    case Failure(e) => Failure(e)
    case Success(t) =>
      var capacity, used := Total(t, CapacityColumns), Total(t, UsedColumns);
      if capacity.None? || used.None? then Failure(BadField)
      else Success(Heap(capacity.value, used.value))
  }

  /** The `jstat -class` figure: the first field of the value row, read as an integer; the header is not consulted. */
  function ClassCount(output: string): (r: Result<int, ParseError>)
  {
    match ParseTable(output)
    case Failure(e) => Failure(e)
    case Success(t) =>
      if t.values == [] then Failure(BadField)
      else
        match ParseInt(t.values[0])
        case None => Failure(BadField)
        case Some(n) => Success(n)
  }

  /** The `ps -L` figure: one thread per line. */
  function ThreadCount(output: string): (r: nat)
  {
    |SplitLines(output)|
  }

  // ---------------------------------------------------------------------
  // Lemmas

  /** The share is 0 for an empty whole, and otherwise the p with p * whole == part * 100. */
  lemma PercentageMeaning(part: real, whole: real)
    ensures whole == 0.0 ==> Percentage(part, whole) == 0.0
    ensures whole != 0.0 ==> Percentage(part, whole) * whole == part * 100.0
  {
    if whole != 0.0 {
      var q := part / whole;
      assert q * whole == part;
      assert Percentage(part, whole) * whole == q * whole * 100.0;
    }
  }

  /** A part within its whole gives a share between 0 and 100. */
  lemma PercentageBounds(part: real, whole: real)
    requires 0.0 <= part <= whole
    ensures 0.0 <= Percentage(part, whole) <= 100.0
  {
    if whole != 0.0 {
      var q := part / whole;
      assert 0.0 <= q <= 1.0 by {
        assert q * whole == part;
      }
    }
  }

  /** Too short an output is rejected before any column is read, by every table reading. */
  lemma ReadingsTooFewLines(output: string)
    requires |SplitLines(output)| < 2
    ensures GcRatio(output) == Failure(TooFewLines)
    ensures HeapReading(output) == Failure(TooFewLines)
    ensures ClassCount(output) == Failure(TooFewLines)
  {
  }

  lemma GcRatioOf(output: string, oc: real, ou: real)
    requires ParseTable(output).Success?
    requires var t := ParseTable(output).value; Lookup(t, "OC") == Some(oc) && Lookup(t, "OU") == Some(ou)
    ensures GcRatio(output) == Success(Percentage(ou, oc))
  {
  }

  /** The value under the first occurrence of a name is the one read. */
  lemma ColumnAt(h: seq<string>, v: seq<string>, i: nat)
    requires i < |h| && i < |v| && h[i] !in h[..i]
    ensures Lookup(Table(h, v), h[i]) == ParseReal(v[i])
  {
    assert h == h[..i] + [h[i]] + h[i + 1..];
    LookupFirstOccurrence(h[..i], h[i], h[i + 1..], v);
  }

  lemma FieldLookup(h: seq<string>, v: seq<string>, name: string, i: nat, x: real)
    requires FieldAt(h, v, name, i, x)
    ensures Lookup(Table(h, v), name) == Some(x)
  {
    ColumnAt(h, v, i);
  }

  /**
    The GC reading of a `jstat -gc` table, however its columns are aligned and
    wherever OC and OU first appear in its header: OU / OC * 100, and exactly 0
    when OC is 0.
  */
  lemma GcRatioFromText(h: seq<string>, v: seq<string>, layout: Layout, i: nat, oc: real, j: nat, ou: real)
    requires Printable(h, v) && Fits(layout, h, v)
    requires FieldAt(h, v, "OC", i, oc) && FieldAt(h, v, "OU", j, ou)
    ensures GcRatio(AlignedText(h, v, layout)) == Success(Percentage(ou, oc))
    ensures oc == 0.0 ==> GcRatio(AlignedText(h, v, layout)) == Success(0.0)
    ensures oc != 0.0 ==> GcRatio(AlignedText(h, v, layout)) == Success(ou / oc * 100.0)
  {
    ParseAligned(h, v, layout);
    FieldLookup(h, v, "OC", i, oc);
    FieldLookup(h, v, "OU", j, ou);
    GcRatioOf(AlignedText(h, v, layout), oc, ou);
  }

  /** The decimal texts the GC example reads, as numbers. */
  lemma SampleNumbers()
    ensures ParseReal("1000") == Some(1000.0)
    ensures ParseReal("250") == Some(250.0)
  {
    assert ShowNat(1000) == "1000" by {
      assert ShowNat(1) == "1" && ShowNat(10) == "10" && ShowNat(100) == "100";
    }
    assert ShowNat(250) == "250" by {
      assert ShowNat(2) == "2" && ShowNat(25) == "25";
    }
    ParseRealShowNat(1000);
    ParseRealShowNat(250);
  }

  /** OC = 1000 and OU = 250 give a ratio of 25. */
  lemma GcRatioExample()
    ensures GcRatio(TableText(["OC", "OU"], ["1000", "250"])) == Success(25.0)
  {
    var h, v := ["OC", "OU"], ["1000", "250"];
    assert IsWord(h[0]) && IsWord(h[1]) && IsWord(v[0]) && IsWord(v[1]);
    assert h[..0] == [] && h[..1] == ["OC"];
    SampleNumbers();
    PlainFits(h, v);
    GcRatioFromText(h, v, Plain(h, v), 0, 1000.0, 1, 250.0);
    assert 250.0 / 1000.0 * 100.0 == 25.0;
  }

  /** A column absent from the header makes the GC reading fail, never a default number. */
  lemma GcMissingColumn(output: string)
    requires ParseTable(output).Success?
    requires var h := Split(SplitLines(output)[0]); "OC" !in h || "OU" !in h
    ensures GcRatio(output) == Failure(BadField)
  {
    var t := ParseTable(output).value;
    if "OC" !in t.header {
      LookupAbsent(t, "OC");
      assert Lookup(t, ["OC", "OU"][0]).None?;
    } else {
      LookupAbsent(t, "OU");
      assert Lookup(t, ["OC", "OU"][1]).None?;
    }
  }

  /** Columns that each read as a number sum to the sum of their numbers. */
  lemma {:induction false} TotalOf(t: Table, names: seq<string>, xs: seq<real>)
    requires |xs| == |names|
    requires forall k :: 0 <= k < |names| ==> Lookup(t, names[k]) == Some(xs[k])
    ensures Total(t, names) == Some(Sum(xs))
  {
    if names != [] {
      assert Lookup(t, names[0]) == Some(xs[0]);
      forall k | 0 <= k < |names| - 1 ensures Lookup(t, names[1..][k]) == Some(xs[1..][k]) {
        assert names[1..][k] == names[k + 1] && xs[1..][k] == xs[k + 1];
      }
      TotalOf(t, names[1..], xs[1..]);
    }
  }

  /** Columns of a printed table, each at its first occurrence, read as their numbers. */
  lemma FieldsLookup(h: seq<string>, v: seq<string>, names: seq<string>, idx: seq<nat>, xs: seq<real>)
    requires |idx| == |names| && |xs| == |names|
    requires forall k :: 0 <= k < |names| ==> FieldAt(h, v, names[k], idx[k], xs[k])
    ensures forall k :: 0 <= k < |names| ==> Lookup(Table(h, v), names[k]) == Some(xs[k])
  {
    forall k | 0 <= k < |names| ensures Lookup(Table(h, v), names[k]) == Some(xs[k]) {
      FieldLookup(h, v, names[k], idx[k], xs[k]);
    }
  }

  /** One unreadable column leaves no total. */
  lemma {:induction false} TotalFails(t: Table, names: seq<string>, name: string)
    requires name in names && Lookup(t, name).None?
    ensures Total(t, names) == None
  {
    if names[0] != name {
      assert name in names[1..];
      TotalFails(t, names[1..], name);
    }
  }

  lemma Sum4(xs: seq<real>)
    requires |xs| == 4
    ensures Sum(xs) == xs[0] + xs[1] + xs[2] + xs[3]
  {
    assert xs[3..][1..] == [];
    assert Sum(xs[3..]) == xs[3];
    assert xs[2..][1..] == xs[3..];
    assert Sum(xs[2..]) == xs[2] + xs[3];
    assert xs[1..][1..] == xs[2..];
  }

  lemma HeapReadingTotals(output: string, capacity: real, used: real)
    requires ParseTable(output).Success?
    requires var t := ParseTable(output).value;
             Total(t, CapacityColumns) == Some(capacity) && Total(t, UsedColumns) == Some(used)
    ensures HeapReading(output) == Success(Heap(capacity, used))
  {
  }

  /**
    The heap figures of a `jstat -gccapacity` table, however its columns are
    aligned and wherever the eight columns first appear in its header: capacity is the sum of the S0C, S1C, E
    and O fields and used the sum of the S0U, S1U, EU and OU fields (`Sum4`
    spells such a sum out term by term).
  */
  lemma HeapFromText(h: seq<string>, v: seq<string>, layout: Layout, ci: seq<nat>, cx: seq<real>, ui: seq<nat>, ux: seq<real>)
    requires Printable(h, v) && Fits(layout, h, v)
    requires |ci| == 4 && |cx| == 4 && |ui| == 4 && |ux| == 4
    requires forall k :: 0 <= k < 4 ==> FieldAt(h, v, CapacityColumns[k], ci[k], cx[k])
    requires forall k :: 0 <= k < 4 ==> FieldAt(h, v, UsedColumns[k], ui[k], ux[k])
    ensures HeapReading(AlignedText(h, v, layout)) == Success(Heap(Sum(cx), Sum(ux)))
  {
    HeapTotals(h, v, ci, cx, ui, ux);
    ParseAligned(h, v, layout);
    HeapReadingTotals(AlignedText(h, v, layout), Sum(cx), Sum(ux));
  }

  lemma HeapTotals(h: seq<string>, v: seq<string>, ci: seq<nat>, cx: seq<real>, ui: seq<nat>, ux: seq<real>)
    requires |ci| == 4 && |cx| == 4 && |ui| == 4 && |ux| == 4
    requires forall k :: 0 <= k < 4 ==> FieldAt(h, v, CapacityColumns[k], ci[k], cx[k])
    requires forall k :: 0 <= k < 4 ==> FieldAt(h, v, UsedColumns[k], ui[k], ux[k])
    ensures Total(Table(h, v), CapacityColumns) == Some(Sum(cx))
    ensures Total(Table(h, v), UsedColumns) == Some(Sum(ux))
  {
    FieldsLookup(h, v, CapacityColumns, ci, cx);
    TotalOf(Table(h, v), CapacityColumns, cx);
    FieldsLookup(h, v, UsedColumns, ui, ux);
    TotalOf(Table(h, v), UsedColumns, ux);
  }

  /** The decimal texts the heap example reads, as numbers. */
  lemma HeapSampleNumbers()
    ensures ParseReal("10") == Some(10.0) && ParseReal("100") == Some(100.0) && ParseReal("880") == Some(880.0)
    ensures ParseReal("2") == Some(2.0) && ParseReal("3") == Some(3.0) && ParseReal("50") == Some(50.0)
    ensures ParseReal("445") == Some(445.0)
  {
    assert ShowNat(10) == "10" by { assert ShowNat(1) == "1"; }
    assert ShowNat(100) == "100" by { assert ShowNat(1) == "1" && ShowNat(10) == "10"; }
    assert ShowNat(880) == "880" by { assert ShowNat(8) == "8" && ShowNat(88) == "88"; }
    assert ShowNat(50) == "50" by { assert ShowNat(5) == "5"; }
    assert ShowNat(445) == "445" by { assert ShowNat(4) == "4" && ShowNat(44) == "44"; }
    assert ShowNat(2) == "2" && ShowNat(3) == "3";
    ParseRealShowNat(10);
    ParseRealShowNat(100);
    ParseRealShowNat(880);
    ParseRealShowNat(2);
    ParseRealShowNat(3);
    ParseRealShowNat(50);
    ParseRealShowNat(445);
  }

  /** The fields of the heap example, each at the first occurrence of its column. */
  lemma HeapSampleFields(h: seq<string>, v: seq<string>)
    requires h == ["S0C", "S1C", "E", "O", "S0U", "S1U", "EU", "OU"] && v == ["10", "10", "100", "880", "2", "3", "50", "445"]
    ensures FieldAt(h, v, "S0C", 0, 10.0) && FieldAt(h, v, "S1C", 1, 10.0)
    ensures FieldAt(h, v, "E", 2, 100.0) && FieldAt(h, v, "O", 3, 880.0)
    ensures FieldAt(h, v, "S0U", 4, 2.0) && FieldAt(h, v, "S1U", 5, 3.0)
    ensures FieldAt(h, v, "EU", 6, 50.0) && FieldAt(h, v, "OU", 7, 445.0)
  {
    HeapSampleNumbers();
    HeapSampleHeader(h);
  }

  /** Each of the eight names of the heap example occurs first where it stands. */
  lemma HeapSampleHeader(h: seq<string>)
    requires h == ["S0C", "S1C", "E", "O", "S0U", "S1U", "EU", "OU"]
    ensures "S0C" !in h[..0] && "S1C" !in h[..1] && "E" !in h[..2] && "O" !in h[..3]
    ensures "S0U" !in h[..4] && "S1U" !in h[..5] && "EU" !in h[..6] && "OU" !in h[..7]
  {
    assert h[..1] == ["S0C"] && h[..2] == ["S0C", "S1C"] && h[..3] == ["S0C", "S1C", "E"];
    assert h[..4] == ["S0C", "S1C", "E", "O"] && h[..5] == h[..4] + ["S0U"];
    assert h[..6] == h[..5] + ["S1U"] && h[..7] == h[..6] + ["EU"];
    assert "S0U"[2] != "S0C"[2] && "S1U"[2] != "S1C"[2] && "S1U"[1] != "S0U"[1];
    assert |"EU"| != |"E"| && |"OU"| != |"O"|;
  }

  /** The heap example's fields, column by column, in the form `HeapFromText` takes them. */
  lemma HeapSampleColumns(h: seq<string>, v: seq<string>, ci: seq<nat>, cx: seq<real>, ui: seq<nat>, ux: seq<real>)
    requires h == ["S0C", "S1C", "E", "O", "S0U", "S1U", "EU", "OU"] && v == ["10", "10", "100", "880", "2", "3", "50", "445"]
    requires ci == [0, 1, 2, 3] && cx == [10.0, 10.0, 100.0, 880.0]
    requires ui == [4, 5, 6, 7] && ux == [2.0, 3.0, 50.0, 445.0]
    ensures forall k :: 0 <= k < 4 ==> FieldAt(h, v, CapacityColumns[k], ci[k], cx[k])
    ensures forall k :: 0 <= k < 4 ==> FieldAt(h, v, UsedColumns[k], ui[k], ux[k])
  {
    HeapSampleFields(h, v);
    forall k | 0 <= k < 4
      ensures FieldAt(h, v, CapacityColumns[k], ci[k], cx[k]) && FieldAt(h, v, UsedColumns[k], ui[k], ux[k])
    {
      if k == 0 {
      } else if k == 1 {
      } else if k == 2 {
      } else {
      }
    }
  }

  /**
    A heap of 10 + 10 + 100 + 880 = 1000 with 2 + 3 + 50 + 445 = 500 in use:
    half of it is used.
  */
  lemma HeapExample()
    ensures HeapReading(TableText(CapacityColumns + UsedColumns, ["10", "10", "100", "880", "2", "3", "50", "445"]))
            == Success(Heap(1000.0, 500.0))
    ensures Heap(1000.0, 500.0).Percent() == 50.0
  {
    var h, v := CapacityColumns + UsedColumns, ["10", "10", "100", "880", "2", "3", "50", "445"];
    var cx, ux := [10.0, 10.0, 100.0, 880.0], [2.0, 3.0, 50.0, 445.0];
    assert h == ["S0C", "S1C", "E", "O", "S0U", "S1U", "EU", "OU"];
    HeapSampleColumns(h, v, [0, 1, 2, 3], cx, [4, 5, 6, 7], ux);
    HeapSamplePrintable(h, v);
    PlainFits(h, v);
    HeapFromText(h, v, Plain(h, v), [0, 1, 2, 3], cx, [4, 5, 6, 7], ux);
    HeapSampleSums(cx, ux);
    assert 500.0 / 1000.0 * 100.0 == 50.0;
  }

  lemma HeapSamplePrintable(h: seq<string>, v: seq<string>)
    requires h == ["S0C", "S1C", "E", "O", "S0U", "S1U", "EU", "OU"] && v == ["10", "10", "100", "880", "2", "3", "50", "445"]
    ensures Printable(h, v)
  {
    assert forall k :: 0 <= k < |h| ==> IsWord(h[k]);
    assert forall k :: 0 <= k < |v| ==> IsWord(v[k]);
  }

  lemma HeapSampleSums(cx: seq<real>, ux: seq<real>)
    requires cx == [10.0, 10.0, 100.0, 880.0] && ux == [2.0, 3.0, 50.0, 445.0]
    ensures Sum(cx) == 1000.0 && Sum(ux) == 500.0
  {
    Sum4(cx);
    Sum4(ux);
  }

  /** The heap usage share is 0 for an empty heap, and otherwise used * 100 / capacity. */
  lemma HeapPercentMeaning(h: Heap)
    ensures h.capacity == 0.0 ==> h.Percent() == 0.0
    ensures h.capacity != 0.0 ==> h.Percent() * h.capacity == h.used * 100.0
    ensures 0.0 <= h.used <= h.capacity ==> 0.0 <= h.Percent() <= 100.0
  {
    PercentageMeaning(h.used, h.capacity);
    if 0.0 <= h.used <= h.capacity {
      PercentageBounds(h.used, h.capacity);
    }
  }

  /** One unreadable column among the eight gives no heap figures, never a default number. */
  lemma HeapReadingFails(output: string, name: string)
    requires ParseTable(output).Success?
    requires (name in CapacityColumns || name in UsedColumns) && Lookup(ParseTable(output).value, name).None?
    ensures HeapReading(output) == Failure(BadField)
  {
    var t := ParseTable(output).value;
    if name in CapacityColumns {
      TotalFails(t, CapacityColumns, name);
    } else {
      TotalFails(t, UsedColumns, name);
    }
  }

  lemma ShowIntWord(n: int)
    ensures IsWord(ShowInt(n))
  {
    var s := ShowInt(n);
    var d := ShowNat(if n < 0 then -n else n);
    forall k | 0 <= k < |s| ensures !IsSpace(s[k]) {
      if n < 0 && k > 0 { assert s[k] == d[k - 1]; }
    }
  }

  /** The class count is the integer first on the value row, whatever the header says and however the columns are aligned. */
  lemma ClassCountRow(header: seq<string>, n: int, rest: seq<string>, layout: Layout)
    requires forall k :: 0 <= k < |header| ==> IsWord(header[k])
    requires forall k :: 0 <= k < |rest| ==> IsWord(rest[k])
    requires Fits(layout, header, [ShowInt(n)] + rest)
    ensures ClassCount(AlignedText(header, [ShowInt(n)] + rest, layout)) == Success(n)
  {
    var v := [ShowInt(n)] + rest;
    ShowIntWord(n);
    forall k | 0 <= k < |v| ensures IsWord(v[k]) {
      if k > 0 { assert v[k] == rest[k - 1]; }
    }
    ParseAligned(header, v, layout);
    ParseIntShowInt(n);
  }

  /** Two outputs with the same value row give the same class count. */
  lemma ClassCountIgnoresHeader(h1: seq<string>, h2: seq<string>, values: seq<string>, l1: Layout, l2: Layout)
    requires forall k :: 0 <= k < |h1| ==> IsWord(h1[k])
    requires forall k :: 0 <= k < |h2| ==> IsWord(h2[k])
    requires forall k :: 0 <= k < |values| ==> IsWord(values[k])
    requires values != []
    requires Fits(l1, h1, values) && Fits(l2, h2, values)
    ensures ClassCount(AlignedText(h1, values, l1)) == ClassCount(AlignedText(h2, values, l2))
  {
    ParseAligned(h1, values, l1);
    ParseAligned(h2, values, l2);
  }

  /** A value row that does not start with an integer gives no class count. */
  lemma ClassCountBadField(output: string)
    requires ParseTable(output).Success?
    requires var v := Split(SplitLines(output)[1]); v == [] || ParseInt(v[0]).None?
    ensures ClassCount(output) == Failure(BadField)
  {
  }

  /**
    A thread listing with one non-blank line per thread, followed by any trailing
    whitespace (such as the final newline `ps` prints), counts its threads.
  */
  lemma ThreadCountListing(threads: seq<string>, trailer: string)
    requires forall k :: 0 <= k < |threads| ==> IsLine(threads[k]) && !AllSpace(threads[k])
    requires AllSpace(trailer)
    ensures ThreadCount(Strip(Join(threads, "\n") + trailer)) == |threads|
  {
    StripAppendSpace(Join(threads, "\n"), trailer);
    if threads != [] {
      CountLinesStrip(threads);
    }
  }

  /** Output that is empty or blank counts no thread. */
  lemma ThreadCountBlank(raw: string)
    requires AllSpace(raw)
    ensures ThreadCount(Strip(raw)) == 0
  {
  }
}
