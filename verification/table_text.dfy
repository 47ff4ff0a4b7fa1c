/** Detecting tables in the plain text of a page: a line splits into columns
    at runs of two or more white-space characters, and a maximal run of lines
    with at least three columns is a table, rendered as HTML with its first
    row as the header. */
module TableText {
  import opened Strings
  import opened HtmlFromText

  const MinCols := 3

  // ---------------------------------------------------------------------
  // splitColumns

  /** No two white-space characters in a row. */
  ghost predicate NoDoubleSpace(p: string)
  {
    forall j, k :: 0 <= j < k < |p| && k == j + 1 ==> !(IsSpace(p[j]) && IsSpace(p[k]))
  }

  /** Drops the leading white space, the rest of a separator run. */
  function DropSpaces(s: string): (r: string)
    ensures |r| <= |s|
    ensures |s| > 0 && IsSpace(s[0]) ==> |r| < |s|
  {
    TrimStart(s)
  }

  predicate StartsSeparator(s: string)
  {
    |s| >= 2 && IsSpace(s[0]) && IsSpace(s[1])
  }

  /** `line.split(/\s{2,}/)`: the pieces between maximal runs of at least two
      white-space characters. */
  function SplitWide(s: string): (parts: seq<string>)
    ensures |parts| >= 1
    decreases |s|
  {
    if s == [] then [""]
    else if StartsSeparator(s) then [""] + SplitWide(DropSpaces(s))
    else
      var rest := SplitWide(s[1..]);
      [[s[0]] + rest[0]] + rest[1..]
  }

  /** No piece of `SplitWide` holds a separator, and a line that does not
      open with one starts its first piece. */
  lemma {:induction false} SplitWideClean(s: string)
    ensures forall k :: 0 <= k < |SplitWide(s)| ==> NoDoubleSpace(SplitWide(s)[k])
    ensures s != [] && !StartsSeparator(s) ==> SplitWide(s)[0] != [] && SplitWide(s)[0][0] == s[0]
    decreases |s|
  {
    if s == [] {
    } else if StartsSeparator(s) {
      SplitWideClean(DropSpaces(s));
    } else {
      SplitWideClean(s[1..]);
      assert |s| >= 2 ==> !StartsSeparator(s[1..]) || !IsSpace(s[0]);
    }
  }

  function TrimAll(ps: seq<string>): (r: seq<string>)
    ensures |r| == |ps|
  {
    if ps == [] then [] else [Trim(ps[0])] + TrimAll(ps[1..])
  }

  /** `.filter(Boolean)` on strings. */
  function NonEmpty(ps: seq<string>): (r: seq<string>)
    ensures |r| <= |ps|
  {
    if ps == [] then []
    else if ps[0] == "" then NonEmpty(ps[1..])
    else [ps[0]] + NonEmpty(ps[1..])
  }

  /** `splitColumns` */
  function SplitColumns(line: string): (cols: seq<string>)
  {
    NonEmpty(TrimAll(SplitWide(line)))
  }

  /** The cells are non-empty, trimmed, and hold no separator. */
  lemma CellsAreClean(line: string)
    ensures var cols := SplitColumns(line);
      forall k :: 0 <= k < |cols| ==>
        cols[k] != "" && Trim(cols[k]) == cols[k] && NoDoubleSpace(cols[k])
  {
    SplitWideClean(line);
    CleanCells(SplitWide(line));
    assert SplitColumns(line) == NonEmpty(TrimAll(SplitWide(line)));
  }

  lemma {:induction false} CleanCells(ps: seq<string>)
    requires forall k :: 0 <= k < |ps| ==> NoDoubleSpace(ps[k])
    ensures var cols := NonEmpty(TrimAll(ps));
      forall k :: 0 <= k < |cols| ==>
        cols[k] != "" && Trim(cols[k]) == cols[k] && NoDoubleSpace(cols[k])
  {
    if ps != [] {
      CleanCells(ps[1..]);
      TrimIdempotent(ps[0]);
      TrimKeepsNoDoubleSpace(ps[0]);
      var t := TrimAll(ps);
      assert t == [Trim(ps[0])] + TrimAll(ps[1..]);
      assert t[1..] == TrimAll(ps[1..]);
      if Trim(ps[0]) == "" {
        assert NonEmpty(t) == NonEmpty(TrimAll(ps[1..]));
      } else {
        assert NonEmpty(t) == [Trim(ps[0])] + NonEmpty(TrimAll(ps[1..]));
      }
    }
  }

  lemma TrimKeepsNoDoubleSpace(s: string)
    requires NoDoubleSpace(s)
    ensures NoDoubleSpace(Trim(s))
  {
    TrimSlice(s);
    var r := Trim(s);
    var i := LeadingSpaces(s);
    forall j, k | 0 <= j < k < |r| && k == j + 1
      ensures !(IsSpace(r[j]) && IsSpace(r[k]))
    {
      assert r[j] == s[i + j] && r[k] == s[i + k];
    }
  }

  /** The characters that are not white space, in order. */
  function Visible(s: string): string
  {
    if s == [] then [] else (if IsSpace(s[0]) then [] else [s[0]]) + Visible(s[1..])
  }

  function Concat(ps: seq<string>): string
  {
    if ps == [] then [] else ps[0] + Concat(ps[1..])
  }

  lemma {:induction false} VisibleAppend(a: string, b: string)
    ensures Visible(a + b) == Visible(a) + Visible(b)
  {
    if a == [] {
      assert a + b == b;
    } else {
      assert (a + b)[0] == a[0] && (a + b)[1..] == a[1..] + b;
      VisibleAppend(a[1..], b);
    }
  }

  lemma {:induction false} VisibleOfSpaces(s: string)
    requires forall k :: 0 <= k < |s| ==> IsSpace(s[k])
    ensures Visible(s) == []
  {
    if s != [] {
      VisibleOfSpaces(s[1..]);
    }
  }

  lemma VisibleTrim(s: string)
    ensures Visible(Trim(s)) == Visible(s)
  {
    TrimSlice(s);
    var r := Trim(s);
    var i := LeadingSpaces(s);
    var before, after := s[..i], s[i + |r|..];
    assert s == before + r + after;
    VisibleAppend(before + r, after);
    VisibleAppend(before, r);
    VisibleOfSpaces(before);
    VisibleOfSpaces(after);
  }

  lemma {:induction false} VisibleSplitWide(s: string)
    ensures Visible(Concat(SplitWide(s))) == Visible(s)
    decreases |s|
  {
    if s == [] {
    } else if StartsSeparator(s) {
      VisibleSplitWide(DropSpaces(s));
      VisibleSeparatorStep(s);
    } else {
      VisibleSplitWide(s[1..]);
      VisibleCharStep(s);
    }
  }

  lemma VisibleSeparatorStep(s: string)
    requires StartsSeparator(s)
    ensures Visible(Concat(SplitWide(s))) == Visible(Concat(SplitWide(DropSpaces(s))))
    ensures Visible(s) == Visible(DropSpaces(s))
  {
    var rest := DropSpaces(s);
    var spaces := s[..LeadingSpaces(s)];
    LeadingSpacesSpan(s);
    assert s == spaces + rest;
    VisibleAppend(spaces, rest);
    VisibleOfSpaces(spaces);
    ConcatEmptyHead(SplitWide(rest));
  }

  lemma ConcatEmptyHead(ps: seq<string>)
    ensures Concat([""] + ps) == Concat(ps)
  {
    assert ([""] + ps)[1..] == ps;
  }

  lemma ConcatCharHead(c: char, ps: seq<string>)
    requires ps != []
    ensures Concat([[c] + ps[0]] + ps[1..]) == [c] + Concat(ps)
  {
    var parts := [[c] + ps[0]] + ps[1..];
    assert parts[1..] == ps[1..];
  }

  lemma VisibleCharStep(s: string)
    requires s != [] && !StartsSeparator(s)
    ensures Visible(Concat(SplitWide(s))) == Visible([s[0]]) + Visible(Concat(SplitWide(s[1..])))
    ensures Visible(s) == Visible([s[0]]) + Visible(s[1..])
  {
    var rest := SplitWide(s[1..]);
    ConcatCharHead(s[0], rest);
    VisibleAppend([s[0]], Concat(rest));
    assert s == [s[0]] + s[1..];
    VisibleAppend([s[0]], s[1..]);
  }

  lemma {:induction false} VisibleTrimAll(ps: seq<string>)
    ensures Visible(Concat(TrimAll(ps))) == Visible(Concat(ps))
  {
    if ps != [] {
      VisibleTrimAll(ps[1..]);
      VisibleTrim(ps[0]);
      VisibleAppend(Trim(ps[0]), Concat(TrimAll(ps[1..])));
      VisibleAppend(ps[0], Concat(ps[1..]));
    }
  }

  lemma {:induction false} VisibleNonEmpty(ps: seq<string>)
    ensures Concat(NonEmpty(ps)) == Concat(ps)
  {
    if ps != [] {
      VisibleNonEmpty(ps[1..]);
      if ps[0] == "" {
        assert Concat(ps) == Concat(ps[1..]);
      }
    }
  }

  /** Splitting loses no visible character and adds none: the cells hold
      exactly the line's non-white-space characters, in order. */
  lemma SplitColumnsKeepsText(line: string)
    ensures Visible(Concat(SplitColumns(line))) == Visible(line)
  {
    var pieces := SplitWide(line);
    VisibleSplitWide(line);
    VisibleTrimAll(pieces);
    VisibleNonEmpty(TrimAll(pieces));
  }

  /** Only a run of two or more white-space characters separates columns:
      a trimmed line whose white space comes one character at a time, such
      as a sentence of prose, is a single cell. */
  lemma SingleSpacesDoNotSplit(line: string)
    requires line != [] && Trim(line) == line && NoDoubleSpace(line)
    ensures SplitColumns(line) == [line]
  {
    SingleSpacedIsWhole(line);
    assert TrimAll([line]) == [line];
  }

  lemma {:induction false} SingleSpacedIsWhole(s: string)
    requires NoDoubleSpace(s)
    ensures SplitWide(s) == [s]
    decreases |s|
  {
    if s != [] {
      assert !StartsSeparator(s) by {
        if |s| >= 2 {
          assert !(IsSpace(s[0]) && IsSpace(s[1]));
        }
      }
      assert NoDoubleSpace(s[1..]) by {
        forall j, k | 0 <= j < k < |s[1..]| && k == j + 1
          ensures !(IsSpace(s[1..][j]) && IsSpace(s[1..][k]))
        {
          assert s[1..][j] == s[j + 1] && s[1..][k] == s[k + 1];
        }
      }
      SingleSpacedIsWhole(s[1..]);
      assert s == [s[0]] + s[1..];
    }
  }

  /** And a run of two white-space characters does split: two clean cells
      with two spaces between them are two columns. */
  lemma DoubleSpaceSplits(a: string, b: string)
    requires a != [] && Trim(a) == a && NoDoubleSpace(a)
    requires b != [] && Trim(b) == b && NoDoubleSpace(b)
    ensures SplitColumns(a + "  " + b) == [a, b]
  {
    TrimSlice(a);
    SplitBeforeSeparator(a, b);
    assert TrimAll([a, b]) == [a, b];
    assert NonEmpty([a, b]) == [a] + NonEmpty([b]);
  }

  lemma {:induction false} SplitBeforeSeparator(a: string, b: string)
    requires NoDoubleSpace(a) && (a == [] || !IsSpace(a[|a| - 1]))
    requires b != [] && Trim(b) == b && NoDoubleSpace(b)
    ensures SplitWide(a + "  " + b) == [a, b]
    decreases |a|
  {
    var s := a + "  " + b;
    if a == [] {
      assert s == "  " + b;
      TrimSlice(b);
      assert !IsSpace(b[0]);
      DropSeparator(b);
      SingleSpacedIsWhole(b);
    } else {
      assert !StartsSeparator(s) by {
        if |a| >= 2 {
          assert !(IsSpace(a[0]) && IsSpace(a[1]));
        }
      }
      assert NoDoubleSpace(a[1..]) by {
        forall j, k | 0 <= j < k < |a[1..]| && k == j + 1
          ensures !(IsSpace(a[1..][j]) && IsSpace(a[1..][k]))
        {
          assert a[1..][j] == a[j + 1] && a[1..][k] == a[k + 1];
        }
      }
      SplitBeforeSeparator(a[1..], b);
      assert s[1..] == a[1..] + "  " + b;
      assert a == [a[0]] + a[1..];
    }
  }

  lemma DropSeparator(b: string)
    requires b != [] && !IsSpace(b[0])
    ensures DropSpaces("  " + b) == b
  {
    var s := "  " + b;
    assert s[1..] == " " + b;
    assert s[1..][1..] == b;
    assert LeadingSpaces(b) == 0;
    assert LeadingSpaces(s) == 2;
  }

  // ---------------------------------------------------------------------
  // Lines

  /** `plain.split(/\r?\n/)` */
  function SplitLines(s: string): (lines: seq<string>)
    ensures |lines| >= 1
    ensures forall k :: 0 <= k < |lines| ==> '\n' !in lines[k]
    decreases |s|
  {
    if s == [] then [""]
    else if s[0] == '\n' then [""] + SplitLines(s[1..])
    else if |s| >= 2 && s[0] == '\r' && s[1] == '\n' then [""] + SplitLines(s[2..])
    else
      var rest := SplitLines(s[1..]);
      [[s[0]] + rest[0]] + rest[1..]
  }

  /** The text with each "\r\n" turned into "\n". */
  function DropCarriageReturns(s: string): string
    decreases |s|
  {
    if s == [] then []
    else if |s| >= 2 && s[0] == '\r' && s[1] == '\n' then "\n" + DropCarriageReturns(s[2..])
    else [s[0]] + DropCarriageReturns(s[1..])
  }

  lemma JoinCharHead(c: char, ps: seq<string>, sep: string)
    requires ps != []
    ensures Join([[c] + ps[0]] + ps[1..], sep) == [c] + Join(ps, sep)
  {
    var parts := [[c] + ps[0]] + ps[1..];
    assert parts[1..] == ps[1..];
  }

  lemma JoinEmptyHead(ps: seq<string>, sep: string)
    requires ps != []
    ensures Join([""] + ps, sep) == sep + Join(ps, sep)
  {
    assert ([""] + ps)[1..] == ps;
  }

  /** Splitting into lines loses nothing but the carriage returns that end
      lines: joining the lines with "\n" gives the text back. */
  lemma {:induction false} JoinSplitLines(s: string)
    ensures Join(SplitLines(s), "\n") == DropCarriageReturns(s)
    decreases |s|
  {
    if s == [] {
    } else if s[0] == '\n' {
      JoinSplitLines(s[1..]);
      JoinEmptyHead(SplitLines(s[1..]), "\n");
    } else if |s| >= 2 && s[0] == '\r' && s[1] == '\n' {
      JoinSplitLines(s[2..]);
      JoinEmptyHead(SplitLines(s[2..]), "\n");
    } else {
      JoinSplitLines(s[1..]);
      JoinCharHead(s[0], SplitLines(s[1..]), "\n");
    }
  }

  // ---------------------------------------------------------------------
  // Grouping lines into tables

  /** The columns of each line; a blank line has none. */
  function Rows(lines: seq<string>): (rows: seq<seq<string>>)
  {
    seq(|lines|, j requires 0 <= j < |lines| => SplitColumns(lines[j]))
  }

  lemma BlankLineHasNoColumns()
    ensures SplitColumns("") == []
  {
    assert SplitWide("") == [""];
    assert TrimAll([""]) == [""];
  }

  /** A line with at least `MinCols` columns. */
  predicate Wide(l: string)
  {
    |SplitColumns(l)| >= MinCols
  }

  /** The loop state: finished tables and the run being collected. */
  datatype Scan = Scan(tables: seq<seq<seq<string>>>, cur: seq<seq<string>>)

  /** One pass of the loop body, given the columns of the line; a blank
      line has no column, so it closes the run like any narrow line. */
  function Feed(st: Scan, cols: seq<string>): Scan
  {
    if |cols| >= MinCols then Scan(st.tables, st.cur + [cols])
    else if st.cur != [] then Scan(st.tables + [st.cur], [])
    else st
  }

  function FeedAll(st: Scan, rows: seq<seq<string>>): Scan
  {
    if rows == [] then st
    else Feed(FeedAll(st, rows[..|rows| - 1]), rows[|rows| - 1])
  }

  /** `if (cur.length) tables.push(cur)` after the loop. */
  function Finish(st: Scan): seq<seq<seq<string>>>
  {
    if st.cur != [] then st.tables + [st.cur] else st.tables
  }

  function Group(rows: seq<seq<string>>): seq<seq<seq<string>>>
  {
    Finish(FeedAll(Scan([], []), rows))
  }

  /** The tables found among the trimmed lines, as rows of cells. */
  function Tables(lines: seq<string>): seq<seq<seq<string>>>
  {
    Group(Rows(lines))
  }

  /** Every table has a row and every row at least `MinCols` cells. */
  predicate GoodTables(tables: seq<seq<seq<string>>>)
  {
    forall t :: 0 <= t < |tables| ==>
      tables[t] != [] && forall j :: 0 <= j < |tables[t]| ==> |tables[t][j]| >= MinCols
  }

  predicate GoodScan(st: Scan)
  {
    GoodTables(st.tables) && forall j :: 0 <= j < |st.cur| ==> |st.cur[j]| >= MinCols
  }

  lemma {:induction false} FeedAllGood(st: Scan, rows: seq<seq<string>>)
    requires GoodScan(st)
    ensures GoodScan(FeedAll(st, rows))
  {
    if rows != [] {
      FeedAllGood(st, rows[..|rows| - 1]);
    }
  }

  /** Every row of every detected table has at least three cells. */
  lemma TablesAreGood(lines: seq<string>)
    ensures GoodTables(Tables(lines))
  {
    FeedAllGood(Scan([], []), Rows(lines));
  }

  lemma {:induction false} FeedAllAppend(st: Scan, a: seq<seq<string>>, b: seq<seq<string>>)
    ensures FeedAll(st, a + b) == FeedAll(FeedAll(st, a), b)
  {
    if b == [] {
      assert a + b == a;
    } else {
      assert (a + b)[..|a + b| - 1] == a + b[..|b| - 1];
      FeedAllAppend(st, a, b[..|b| - 1]);
    }
  }

  /** Tables finished earlier are never touched again. */
  lemma {:induction false} FeedAllShift(done: seq<seq<seq<string>>>, rows: seq<seq<string>>)
    ensures var scanned := FeedAll(Scan([], []), rows);
      FeedAll(Scan(done, []), rows) == Scan(done + scanned.tables, scanned.cur)
  {
    if rows == [] {
      assert done + [] == done;
    } else {
      FeedAllShift(done, rows[..|rows| - 1]);
      var before := FeedAll(Scan([], []), rows[..|rows| - 1]);
      assert (done + before.tables) + [before.cur] == done + (before.tables + [before.cur]);
    }
  }

  /** A row of fewer than three cells separates tables. */
  lemma NarrowRowSplits(a: seq<seq<string>>, cols: seq<string>, b: seq<seq<string>>)
    requires |cols| < MinCols
    ensures Group(a + [cols] + b) == Group(a) + Group(b)
  {
    var empty := Scan([], []);
    FeedAllAppend(empty, a + [cols], b);
    FeedAllAppend(empty, a, [cols]);
    assert FeedAll(FeedAll(empty, a), [cols]) == Feed(FeedAll(empty, a), cols);
    FeedAllShift(Group(a), b);
    var scanned := FeedAll(empty, b);
    if scanned.cur != [] {
      assert (Group(a) + scanned.tables) + [scanned.cur] == Group(a) + (scanned.tables + [scanned.cur]);
    }
  }

  /** A line with fewer than three columns, blank or not, closes the run:
      the tables of the text around it are those of the part before and of
      the part after. */
  lemma NarrowLineSplitsTables(a: seq<string>, l: string, b: seq<string>)
    requires !Wide(l)
    ensures Tables(a + [l] + b) == Tables(a) + Tables(b)
  {
    assert Rows(a + [l] + b) == Rows(a) + [SplitColumns(l)] + Rows(b);
    NarrowRowSplits(Rows(a), SplitColumns(l), Rows(b));
  }

  lemma {:induction false} WideRowsCollect(rows: seq<seq<string>>)
    requires forall j :: 0 <= j < |rows| ==> |rows[j]| >= MinCols
    ensures FeedAll(Scan([], []), rows) == Scan([], rows)
  {
    if rows != [] {
      WideRowsCollect(rows[..|rows| - 1]);
      assert rows[..|rows| - 1] + [rows[|rows| - 1]] == rows;
    }
  }

  /** A run of lines with at least three columns each is one table whose
      rows are the lines' columns. */
  lemma WideRunIsOneTable(lines: seq<string>)
    requires lines != []
    requires forall j :: 0 <= j < |lines| ==> Wide(lines[j])
    ensures Tables(lines) == [Rows(lines)]
  {
    WideRowsCollect(Rows(lines));
  }

  lemma {:induction false} NarrowRowsNothing(rows: seq<seq<string>>)
    requires forall j :: 0 <= j < |rows| ==> |rows[j]| < MinCols
    ensures FeedAll(Scan([], []), rows) == Scan([], [])
  {
    if rows != [] {
      NarrowRowsNothing(rows[..|rows| - 1]);
    }
  }

  /** Text without a line of three or more columns has no table. */
  lemma NoWideLineNoTables(lines: seq<string>)
    requires forall j :: 0 <= j < |lines| ==> !Wide(lines[j])
    ensures Tables(lines) == []
  {
    NarrowRowsNothing(Rows(lines));
  }

  /** One more line feeds its columns to the scan. */
  lemma GroupStep(lines: seq<string>, i: nat)
    requires i < |lines|
    ensures FeedAll(Scan([], []), Rows(lines[..i + 1]))
      == Feed(FeedAll(Scan([], []), Rows(lines[..i])), SplitColumns(lines[i]))
  {
    var before := Rows(lines[..i]);
    assert Rows(lines[..i + 1]) == before + [SplitColumns(lines[i])];
    assert (before + [SplitColumns(lines[i])])[..|before|] == before;
  }

  /** The `for (const l of lines)` loop and the push after it. */
  method GroupTables(lines: seq<string>) returns (tables: seq<seq<seq<string>>>)
    ensures tables == Tables(lines)
  {
    tables := [];
    var cur: seq<seq<string>> := [];
    var i := 0;
    while i < |lines|
      invariant 0 <= i <= |lines|
      invariant Scan(tables, cur) == FeedAll(Scan([], []), Rows(lines[..i]))
    {
      var l := lines[i];
      GroupStep(lines, i);
      ghost var before := Scan(tables, cur);
      if l == "" {
        BlankLineHasNoColumns();
        if cur != [] {
          tables := tables + [cur];
          cur := [];
        }
      } else {
        var cols := SplitColumns(l);
        if |cols| >= MinCols {
          cur := cur + [cols];
        } else if cur != [] {
          tables := tables + [cur];
          cur := [];
        }
      }
      assert Scan(tables, cur) == Feed(before, SplitColumns(l));
      i := i + 1;
    }
    assert lines[..i] == lines;
    if cur != [] {
      tables := tables + [cur];
    }
  }

  // ---------------------------------------------------------------------
  // Rendering a table

  /** `r?.[i] ?? ''` */
  function Cell(r: seq<string>, i: int): string
  {
    if 0 <= i < |r| then r[i] else ""
  }

  /** `Math.max(...rows.map(r => r.length))`; for no rows that is
      `-Infinity`, which runs the cell loops zero times, as 0 does. */
  function MaxCols(rows: seq<seq<string>>): (m: nat)
    ensures forall j :: 0 <= j < |rows| ==> |rows[j]| <= m
    ensures rows != [] ==> exists j :: 0 <= j < |rows| && |rows[j]| == m
    ensures rows == [] ==> m == 0
  {
    if rows == [] then 0
    else
      var rest := MaxCols(rows[1..]);
      assert forall j :: 1 <= j < |rows| ==> rows[j] == rows[1..][j - 1];
      if |rows[0]| >= rest then |rows[0]| else rest
  }

  /** A row padded with empty cells to `n` cells. */
  function Padded(r: seq<string>, n: nat): (p: seq<string>)
    ensures |p| == n
    ensures |r| <= n ==> p[..|r|] == r
    ensures forall i :: |r| <= i < n ==> p[i] == ""
  {
    seq(n, i => Cell(r, i))
  }

  /** A table laid out: the header row and the body rows. */
  datatype Layout = Layout(head: seq<string>, body: seq<seq<string>>)

  /** `thead = rows[0]`, `body = rows.slice(1)`: every row padded to the
      widest row of the table. */
  function LayOut(rows: seq<seq<string>>): (t: Layout)
    ensures |t.head| == MaxCols(rows)
    ensures rows != [] ==> t.head[..|rows[0]|] == rows[0]
    ensures rows == [] ==> t.head == [] && t.body == []
    ensures rows != [] ==> |t.body| == |rows| - 1
    ensures forall j :: 0 <= j < |t.body| ==>
      |t.body[j]| == MaxCols(rows) && t.body[j][..|rows[j + 1]|] == rows[j + 1]
    ensures forall j, i :: 0 <= j < |t.body| && |rows[j + 1]| <= i < MaxCols(rows) ==> t.body[j][i] == ""
  {
    var m := MaxCols(rows);
    if rows == [] then Layout([], [])
    else Layout(Padded(rows[0], m), seq(|rows| - 1, j requires 0 <= j < |rows| - 1 => Padded(rows[j + 1], m)))
  }

  /** `<tag>${escapeHtml(text)}</tag>` */
  function Wrap(tag: string, text: string): string
  {
    "<" + tag + ">" + EscapeHtml(text) + "</" + tag + ">"
  }

  function CellsHtml(tag: string, cells: seq<string>): string
  {
    if cells == [] then ""
    else CellsHtml(tag, cells[..|cells| - 1]) + Wrap(tag, cells[|cells| - 1])
  }

  function BodyRowsHtml(body: seq<seq<string>>): string
  {
    if body == [] then ""
    else BodyRowsHtml(body[..|body| - 1]) + "<tr>" + CellsHtml("td", body[|body| - 1]) + "</tr>"
  }

  /** The HTML of a laid-out table; every cell's text is escaped. */
  function TableHtml(t: Layout): string
  {
    "<table data-detected=\"text-heuristic\"><thead><tr>" + CellsHtml("th", t.head)
      + "</tr></thead><tbody>" + BodyRowsHtml(t.body) + "</tbody></table>"
  }

  lemma CellsHtmlStep(tag: string, r: seq<string>, i: nat, prefix: string)
    ensures prefix + CellsHtml(tag, Padded(r, i + 1))
      == (prefix + CellsHtml(tag, Padded(r, i))) + Wrap(tag, Cell(r, i))
  {
    var cells := Padded(r, i + 1);
    assert cells[..i] == Padded(r, i);
    assert CellsHtml(tag, cells) == CellsHtml(tag, Padded(r, i)) + Wrap(tag, Cell(r, i));
    AppendAssociates(prefix, CellsHtml(tag, Padded(r, i)), Wrap(tag, Cell(r, i)));
  }

  /** The cells loop `for (let i = 0; i < maxCols; i++)`. */
  method EmitCells(tag: string, r: seq<string>, m: nat, html0: string) returns (html: string)
    ensures html == html0 + CellsHtml(tag, Padded(r, m))
  {
    html := html0;
    var i := 0;
    while i < m
      invariant 0 <= i <= m
      invariant html == html0 + CellsHtml(tag, Padded(r, i))
    {
      CellsHtmlStep(tag, r, i, html0);
      html := html + Wrap(tag, Cell(r, i));
      i := i + 1;
    }
  }

  lemma BodyRowsStep(body: seq<seq<string>>, j: nat, prefix: string)
    requires j < |body|
    ensures prefix + BodyRowsHtml(body[..j + 1])
      == ((prefix + BodyRowsHtml(body[..j])) + "<tr>" + CellsHtml("td", body[j])) + "</tr>"
  {
    assert body[..j + 1][..j] == body[..j];
  }

  /** The body rows, each padded to `m` cells, appended to `html0`. */
  method EmitBody(body: seq<seq<string>>, padded: seq<seq<string>>, m: nat, html0: string) returns (html: string)
    requires |padded| == |body|
    requires forall j :: 0 <= j < |body| ==> padded[j] == Padded(body[j], m)
    ensures html == html0 + BodyRowsHtml(padded)
  {
    html := html0;
    var j := 0;
    while j < |body|
      invariant 0 <= j <= |body|
      invariant html == html0 + BodyRowsHtml(padded[..j])
    {
      BodyRowsStep(padded, j, html0);
      html := html + "<tr>";
      html := EmitCells("td", body[j], m, html);
      html := html + "</tr>";
      j := j + 1;
    }
    assert padded[..j] == padded;
  }

  /** The callback of `tables.map`: header cells, then one `<tr>` per body
      row, each row padded to the widest. */
  method RenderTable(rows: seq<seq<string>>) returns (html: string)
    ensures html == TableHtml(LayOut(rows))
  {
    var t := LayOut(rows);
    var m := MaxCols(rows);
    var head := if rows == [] then [] else rows[0];
    assert Padded(head, m) == t.head;
    var body := if rows == [] then [] else rows[1..];
    assert forall j :: 0 <= j < |body| ==> t.body[j] == Padded(body[j], m);
    html := "<table data-detected=\"text-heuristic\"><thead><tr>";
    html := EmitCells("th", head, m, html);
    html := html + "</tr></thead><tbody>";
    html := EmitBody(body, t.body, m, html);
    html := html + "</tbody></table>";
  }

  /** `buildTablesFromPlainText`: one HTML table per run of lines with at
      least three columns. */
  method BuildTablesFromPlainText(plain: string) returns (htmls: seq<string>)
    ensures var tables := Tables(TrimAll(SplitLines(plain)));
      |htmls| == |tables|
      && forall k :: 0 <= k < |tables| ==> htmls[k] == TableHtml(LayOut(tables[k]))
  {
    var lines := TrimAll(SplitLines(plain));
    var tables := GroupTables(lines);
    htmls := [];
    var k := 0;
    while k < |tables|
      invariant 0 <= k <= |tables|
      invariant |htmls| == k
      invariant forall q :: 0 <= q < k ==> htmls[q] == TableHtml(LayOut(tables[q]))
    {
      var html := RenderTable(tables[k]);
      htmls := htmls + [html];
      k := k + 1;
    }
  }
}
