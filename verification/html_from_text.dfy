/** Turning the positioned text items of one PDF page into simple HTML
    (`buildHtmlFromTextItems`) and plain text, and the HTML escaping every
    emitted text goes through (`escapeHtml`). */
module HtmlFromText {
  import opened Wrappers
  import opened Strings

  // ---------------------------------------------------------------------
  // escapeHtml

  /** `s.replace(/c/g, rep)` for a single character `c`. */
  function ReplaceChar(s: string, c: char, rep: string): (r: string)
    ensures c !in rep ==> c !in r
    ensures forall d :: d != c && d !in rep && d in r ==> d in s
  {
    if s == [] then []
    else (if s[0] == c then rep else [s[0]]) + ReplaceChar(s[1..], c, rep)
  }

  /** `escapeHtml`: '&' first, then '<', then '>'. */
  function EscapeHtml(s: string): (r: string)
  {
    ReplaceChar(ReplaceChar(ReplaceChar(s, '&', "&amp;"), '<', "&lt;"), '>', "&gt;")
  }

  /** The escape of one character, as an HTML serialiser writes it. */
  function EscapeChar(c: char): string
  {
    if c == '&' then "&amp;" else if c == '<' then "&lt;" else if c == '>' then "&gt;" else [c]
  }

  /** Escaping character by character: a reference definition of `EscapeHtml`. */
  function EscapeEach(s: string): string
  {
    if s == [] then [] else EscapeChar(s[0]) + EscapeEach(s[1..])
  }

  lemma {:induction false} ReplaceCharAppend(a: string, b: string, c: char, rep: string)
    ensures ReplaceChar(a + b, c, rep) == ReplaceChar(a, c, rep) + ReplaceChar(b, c, rep)
  {
    if a == [] {
      assert a + b == b;
    } else {
      assert (a + b)[1..] == a[1..] + b;
      ReplaceCharAppend(a[1..], b, c, rep);
    }
  }

  lemma EscapeHtmlAppend(a: string, b: string)
    ensures EscapeHtml(a + b) == EscapeHtml(a) + EscapeHtml(b)
  {
    ReplaceCharAppend(a, b, '&', "&amp;");
    var a1, b1 := ReplaceChar(a, '&', "&amp;"), ReplaceChar(b, '&', "&amp;");
    ReplaceCharAppend(a1, b1, '<', "&lt;");
    var a2, b2 := ReplaceChar(a1, '<', "&lt;"), ReplaceChar(b1, '<', "&lt;");
    ReplaceCharAppend(a2, b2, '>', "&gt;");
  }

  lemma ReplaceCharOne(c: char, d: char, rep: string)
    ensures ReplaceChar([c], d, rep) == if c == d then rep else [c]
  {
    assert ReplaceChar([c][1..], d, rep) == [];
  }

  lemma {:induction false} ReplaceCharAbsent(s: string, c: char, rep: string)
    requires c !in s
    ensures ReplaceChar(s, c, rep) == s
  {
    if s != [] {
      assert s[0] in s;
      assert forall d :: d in s[1..] ==> d in s;
      ReplaceCharAbsent(s[1..], c, rep);
    }
  }

  lemma EscapeHtmlChar(c: char)
    ensures EscapeHtml([c]) == EscapeChar(c)
  {
    ReplaceCharOne(c, '&', "&amp;");
    if c == '&' {
      EscapeOfAmpersand();
    } else {
      ReplaceCharOne(c, '<', "&lt;");
      if c == '<' {
        EscapeOfLessThan();
      } else {
        ReplaceCharOne(c, '>', "&gt;");
      }
    }
  }

  lemma EscapeOfAmpersand()
    ensures ReplaceChar(ReplaceChar("&amp;", '<', "&lt;"), '>', "&gt;") == "&amp;"
  {
    assert '<' !in "&amp;" && '>' !in "&amp;";
    ReplaceCharAbsent("&amp;", '<', "&lt;");
    ReplaceCharAbsent("&amp;", '>', "&gt;");
  }

  lemma EscapeOfLessThan()
    ensures ReplaceChar("&lt;", '>', "&gt;") == "&lt;"
  {
    assert '>' !in "&lt;";
    ReplaceCharAbsent("&lt;", '>', "&gt;");
  }

  /** Because '&' is replaced first, the '&' the later replacements write is
      never escaped twice: the chain escapes each character exactly once. */
  lemma {:induction false} EscapeHtmlIsEscapeEach(s: string)
    ensures EscapeHtml(s) == EscapeEach(s)
  {
    if s != [] {
      assert s == [s[0]] + s[1..];
      EscapeHtmlAppend([s[0]], s[1..]);
      EscapeHtmlChar(s[0]);
      EscapeHtmlIsEscapeEach(s[1..]);
    }
  }

  /** The escaped text has no '<' and no '>', so it cannot open a tag. */
  lemma EscapedHasNoAngleBrackets(s: string)
    ensures '<' !in EscapeHtml(s) && '>' !in EscapeHtml(s)
  {
    var a := ReplaceChar(s, '&', "&amp;");
    var b := ReplaceChar(a, '<', "&lt;");
    assert '<' !in b;
  }

  /** Text without '&', '<' and '>' is returned unchanged. */
  lemma {:induction false} EscapeHtmlPlainText(s: string)
    requires '&' !in s && '<' !in s && '>' !in s
    ensures EscapeHtml(s) == s
  {
    EscapeHtmlIsEscapeEach(s);
    EscapeEachPlainText(s);
  }

  lemma {:induction false} EscapeEachPlainText(s: string)
    requires '&' !in s && '<' !in s && '>' !in s
    ensures EscapeEach(s) == s
  {
    if s != [] {
      assert s[0] in s;
      assert forall c :: c in s[1..] ==> c in s;
      EscapeEachPlainText(s[1..]);
    }
  }

  /** Decoding the three character references, as an HTML parser does. */
  function Unescape(s: string): string
    decreases |s|
  {
    if s == [] then []
    else if |s| >= 5 && s[..5] == "&amp;" then "&" + Unescape(s[5..])
    else if |s| >= 4 && s[..4] == "&lt;" then "<" + Unescape(s[4..])
    else if |s| >= 4 && s[..4] == "&gt;" then ">" + Unescape(s[4..])
    else [s[0]] + Unescape(s[1..])
  }

  /** Escaping loses nothing: the browser shows the original text. */
  lemma {:induction false} UnescapeEscapeHtml(s: string)
    ensures Unescape(EscapeHtml(s)) == s
  {
    EscapeHtmlIsEscapeEach(s);
    UnescapeEscapeEach(s);
  }

  lemma {:induction false} UnescapeEscapeEach(s: string)
    ensures Unescape(EscapeEach(s)) == s
  {
    if s != [] {
      var e := EscapeChar(s[0]);
      var rest := EscapeEach(s[1..]);
      var t := e + rest;
      assert EscapeEach(s) == t;
      UnescapeEscapeEach(s[1..]);
      if s[0] == '&' {
        assert t[..5] == "&amp;" && t[5..] == rest;
        assert Unescape(t) == "&" + Unescape(rest);
      } else if s[0] == '<' {
        assert t[..4] == "&lt;" && t[4..] == rest;
        assert |t| >= 5 ==> t[..5][1] == 'l';
        assert Unescape(t) == "<" + Unescape(rest);
      } else if s[0] == '>' {
        assert t[..4] == "&gt;" && t[4..] == rest;
        assert |t| >= 5 ==> t[..5][1] == 'g';
        assert t[..4][1] == 'g';
        assert Unescape(t) == ">" + Unescape(rest);
      } else {
        assert t[0] == s[0] && t[1..] == rest;
        assert |t| >= 5 ==> t[..5][0] == t[0];
        assert |t| >= 4 ==> t[..4][0] == t[0];
        assert Unescape(t) == [s[0]] + Unescape(rest);
      }
      assert s == [s[0]] + s[1..];
    }
  }

  // ---------------------------------------------------------------------
  // buildHtmlFromTextItems

  /** Items whose baselines differ by at most this much share a line. */
  const YEps: real := 2.0

  /** A pdf.js text item: its string (a missing or empty one is skipped),
      its baseline `transform[5]` and the font size derived from its
      transform. */
  datatype TextItem = TextItem(str: Option<string>, y: real, fontSize: real)

  datatype Part = Part(text: string, fontSize: real)

  /** A line keeps the y of the item that created it. */
  datatype Line = Line(y: real, parts: seq<Part>)

  function Abs(x: real): (r: real)
    ensures r >= 0.0 && (r == x || r == -x)
  {
    if x < 0.0 then -x else x
  }

  predicate HasText(it: TextItem)
  {
    it.str.Some? && it.str.value != ""
  }

  /** The part an item contributes. */
  function PartOf(it: TextItem): Part
    requires HasText(it)
  {
    Part(it.str.value, Abs(it.fontSize))
  }

  /** No two lines are within `YEps` of each other. */
  predicate Separated(lines: seq<Line>)
  {
    forall i, j :: 0 <= i < j < |lines| ==> Abs(lines[i].y - lines[j].y) > YEps
  }

  /** Every part has text and a non-negative font size, and no line is empty. */
  predicate WellFormed(lines: seq<Line>)
  {
    forall k :: 0 <= k < |lines| ==>
      lines[k].parts != []
      && forall j :: 0 <= j < |lines[k].parts| ==>
           lines[k].parts[j].text != "" && lines[k].parts[j].fontSize >= 0.0
  }

  /** `lines.find(l => Math.abs(l.y - y) <= yEps)`, as an index. */
  function FindLine(lines: seq<Line>, y: real): (r: Option<nat>)
    ensures r.None? <==> forall k :: 0 <= k < |lines| ==> Abs(lines[k].y - y) > YEps
    ensures r.Some? ==>
      r.value < |lines| && Abs(lines[r.value].y - y) <= YEps
      && forall k :: 0 <= k < r.value ==> Abs(lines[k].y - y) > YEps
  {
    if lines == [] then None
    else if Abs(lines[0].y - y) <= YEps then Some(0)
    else
      var r := FindLine(lines[1..], y);
      if r.Some? then Some(r.value + 1) else None
  }

  /** The lines after one item: it joins the first line within `YEps`, or
      starts a new line at its own y. */
  function Place(lines: seq<Line>, it: TextItem): (r: seq<Line>)
    ensures !HasText(it) ==> r == lines
    ensures |lines| <= |r| <= |lines| + 1
    ensures forall k :: 0 <= k < |lines| ==> r[k].y == lines[k].y
    ensures HasText(it) && |r| == |lines| + 1 ==>
      r[|lines|] == Line(it.y, [PartOf(it)])
      && (forall k :: 0 <= k < |lines| ==> Abs(lines[k].y - it.y) > YEps)
      && r[..|lines|] == lines
  {
    if !HasText(it) then lines
    else
      match FindLine(lines, it.y)
        case Some(k) => lines[k := lines[k].(parts := lines[k].parts + [PartOf(it)])]
        case None => lines + [Line(it.y, [PartOf(it)])]
  }

  /** An item with text that does not open a new line joins the first line
      within `YEps` of it, at the end of that line's parts. */
  lemma PlaceJoinsFirstCloseLine(lines: seq<Line>, it: TextItem)
    requires HasText(it) && |Place(lines, it)| == |lines|
    ensures exists i :: (
      0 <= i < |lines| && Abs(lines[i].y - it.y) <= YEps
      && (forall k :: 0 <= k < i ==> Abs(lines[k].y - it.y) > YEps)
      && Place(lines, it) == lines[i := lines[i].(parts := lines[i].parts + [PartOf(it)])])
  {
    var i := FindLine(lines, it.y).value;
    assert Place(lines, it) == lines[i := lines[i].(parts := lines[i].parts + [PartOf(it)])];
  }

  /** Placing an item keeps the lines apart from each other, and keeps
      every line non-empty with parts that have text. */
  lemma PlaceKeepsLinesApart(lines: seq<Line>, it: TextItem)
    ensures Separated(lines) ==> Separated(Place(lines, it))
    ensures WellFormed(lines) ==> WellFormed(Place(lines, it))
  {
    if HasText(it) {
      var r := Place(lines, it);
      if |r| == |lines| {
        var i := FindLine(lines, it.y).value;
        assert r == lines[i := lines[i].(parts := lines[i].parts + [PartOf(it)])];
        assert forall k :: 0 <= k < |r| ==> r[k].y == lines[k].y;
      } else {
        assert r == lines + [Line(it.y, [PartOf(it)])];
      }
    }
  }

  function PartCount(lines: seq<Line>): nat
  {
    if lines == [] then 0 else |lines[0].parts| + PartCount(lines[1..])
  }

  function TextItemCount(items: seq<TextItem>): nat
  {
    if items == [] then 0
    else TextItemCount(items[..|items| - 1]) + (if HasText(items[|items| - 1]) then 1 else 0)
  }

  lemma {:induction false} PartCountAppend(lines: seq<Line>, line: Line)
    ensures PartCount(lines + [line]) == PartCount(lines) + |line.parts|
  {
    if lines != [] {
      assert (lines + [line])[1..] == lines[1..] + [line];
      PartCountAppend(lines[1..], line);
    }
  }

  lemma {:induction false} PartCountGrow(lines: seq<Line>, i: nat, part: Part)
    requires i < |lines|
    ensures PartCount(lines[i := lines[i].(parts := lines[i].parts + [part])]) == PartCount(lines) + 1
  {
    if i > 0 {
      var grown := lines[i := lines[i].(parts := lines[i].parts + [part])];
      assert grown[1..] == lines[1..][i - 1 := lines[i].(parts := lines[i].parts + [part])];
      PartCountGrow(lines[1..], i - 1, part);
    }
  }

  /** The parts of the lines, line after line. */
  function AllParts(lines: seq<Line>): seq<Part>
  {
    if lines == [] then [] else lines[0].parts + AllParts(lines[1..])
  }

  /** The parts of the items that have text, in item order. */
  function TextParts(items: seq<TextItem>): seq<Part>
  {
    if items == [] then []
    else TextParts(items[..|items| - 1]) + (if HasText(items[|items| - 1]) then [PartOf(items[|items| - 1])] else [])
  }

  lemma {:induction false} AllPartsAppend(lines: seq<Line>, line: Line)
    ensures AllParts(lines + [line]) == AllParts(lines) + line.parts
  {
    if lines != [] {
      assert (lines + [line])[1..] == lines[1..] + [line];
      AllPartsAppend(lines[1..], line);
    }
  }

  lemma {:induction false} AllPartsGrow(lines: seq<Line>, i: nat, part: Part)
    requires i < |lines|
    ensures multiset(AllParts(lines[i := lines[i].(parts := lines[i].parts + [part])]))
      == multiset(AllParts(lines)) + multiset{part}
  {
    var grown := lines[i := lines[i].(parts := lines[i].parts + [part])];
    if i > 0 {
      assert grown[1..] == lines[1..][i - 1 := lines[i].(parts := lines[i].parts + [part])];
      AllPartsGrow(lines[1..], i - 1, part);
    } else {
      assert grown[1..] == lines[1..];
    }
  }

  /** Placing an item adds exactly its part, if it has text, to the parts
      of the lines. */
  lemma PlaceAddsItsPart(lines: seq<Line>, it: TextItem)
    ensures multiset(AllParts(Place(lines, it)))
      == multiset(AllParts(lines)) + (if HasText(it) then multiset{PartOf(it)} else multiset{})
  {
    if HasText(it) {
      var found := FindLine(lines, it.y);
      if found.Some? {
        AllPartsGrow(lines, found.value, PartOf(it));
      } else {
        AllPartsAppend(lines, Line(it.y, [PartOf(it)]));
      }
    }
  }

  /** Clustering loses no item with text and invents no part: the parts of
      the lines are, up to order, exactly the parts of the items with text,
      each in one line. */
  lemma {:induction false} ClusterKeepsEveryPart(items: seq<TextItem>)
    ensures multiset(AllParts(Cluster(items))) == multiset(TextParts(items))
  {
    if items != [] {
      ClusterKeepsEveryPart(items[..|items| - 1]);
      PlaceAddsItsPart(Cluster(items[..|items| - 1]), items[|items| - 1]);
    }
  }

  /** The clustering of the page's items into lines, item by item. */
  function Cluster(items: seq<TextItem>): (lines: seq<Line>)
    ensures Separated(lines) && WellFormed(lines)
    ensures PartCount(lines) == TextItemCount(items)
  {
    if items == [] then []
    else
      var before := Cluster(items[..|items| - 1]);
      var it := items[|items| - 1];
      var after := Place(before, it);
      PlaceKeepsLinesApart(before, it);
      assert PartCount(after) == PartCount(before) + (if HasText(it) then 1 else 0) by {
        if HasText(it) {
          var found := FindLine(before, it.y);
          if found.Some? {
            PartCountGrow(before, found.value, PartOf(it));
          } else {
            PartCountAppend(before, Line(it.y, [PartOf(it)]));
          }
        }
      }
      after
  }

  lemma ClusterStep(items: seq<TextItem>, i: nat)
    requires i < |items|
    ensures Cluster(items[..i + 1]) == Place(Cluster(items[..i]), items[i])
  {
    assert items[..i + 1][..i] == items[..i];
  }

  /** The `for (const it of items)` loop building `lines`. */
  method ClusterLines(items: seq<TextItem>) returns (lines: seq<Line>)
    ensures lines == Cluster(items)
  {
    lines := [];
    var i := 0;
    while i < |items|
      invariant 0 <= i <= |items|
      invariant lines == Cluster(items[..i])
    {
      ClusterStep(items, i);
      ghost var before := lines;
      var it := items[i];
      if HasText(it) {
        var part := Part(it.str.value, Abs(it.fontSize));
        var found := FindLine(lines, it.y);
        if found.Some? {
          var k := found.value;
          lines := lines[k := lines[k].(parts := lines[k].parts + [part])];
        } else {
          lines := lines + [Line(it.y, [part])];
        }
      }
      assert lines == Place(before, it);
      i := i + 1;
    }
    assert items[..i] == items;
  }

  /** A page with no text item has no line. */
  lemma NoTextNoLines(items: seq<TextItem>)
    requires forall k :: 0 <= k < |items| ==> !HasText(items[k])
    ensures Cluster(items) == []
  {
    assert TextItemCount(items) == 0 by {
      NoTextCount(items);
    }
  }

  lemma {:induction false} NoTextCount(items: seq<TextItem>)
    requires forall k :: 0 <= k < |items| ==> !HasText(items[k])
    ensures TextItemCount(items) == 0
  {
    if items != [] {
      NoTextCount(items[..|items| - 1]);
    }
  }

  // Ordering the lines top to bottom (pdf.js y grows upwards).

  predicate TopToBottom(lines: seq<Line>)
  {
    forall i, j :: 0 <= i < j < |lines| ==> lines[i].y >= lines[j].y
  }

  function Insert(sorted: seq<Line>, line: Line): (r: seq<Line>)
    requires TopToBottom(sorted)
    ensures TopToBottom(r)
    ensures |r| == |sorted| + 1
    ensures r[0] == line || (sorted != [] && r[0] == sorted[0])
  {
    if sorted == [] then [line]
    else if line.y >= sorted[0].y then [line] + sorted
    else
      var rest := Insert(sorted[1..], line);
      var r := [sorted[0]] + rest;
      assert TopToBottom(r) by {
        assert sorted[0].y >= rest[0].y;
        forall i, j | 0 <= i < j < |r|
          ensures r[i].y >= r[j].y
        {
          assert r[j] == rest[j - 1];
          if i > 0 {
            assert r[i] == rest[i - 1];
          } else if j > 1 {
            assert rest[0].y >= rest[j - 1].y;
          }
        }
      }
      r
  }

  /** Inserting adds the line and loses none. */
  lemma {:induction false} InsertPermutes(sorted: seq<Line>, line: Line)
    requires TopToBottom(sorted)
    ensures multiset(Insert(sorted, line)) == multiset(sorted) + multiset{line}
  {
    if sorted != [] && line.y < sorted[0].y {
      InsertPermutes(sorted[1..], line);
      assert sorted == [sorted[0]] + sorted[1..];
    }
  }

  /** `lines.sort((a, b) => b.y - a.y)`: the same lines, top line first. */
  function SortTopToBottom(lines: seq<Line>): (r: seq<Line>)
    ensures TopToBottom(r)
    ensures multiset(r) == multiset(lines)
  {
    if lines == [] then []
    else
      assert lines == lines[..|lines| - 1] + [lines[|lines| - 1]];
      InsertPermutes(SortTopToBottom(lines[..|lines| - 1]), lines[|lines| - 1]);
      Insert(SortTopToBottom(lines[..|lines| - 1]), lines[|lines| - 1])
  }

  // Heading thresholds.

  function Sizes(lines: seq<Line>): seq<real>
  {
    if lines == [] then [] else PartSizes(lines[0].parts) + Sizes(lines[1..])
  }

  function PartSizes(parts: seq<Part>): seq<real>
  {
    if parts == [] then [] else [parts[0].fontSize] + PartSizes(parts[1..])
  }

  function SumOf(xs: seq<real>): real
  {
    if xs == [] then 0.0 else xs[0] + SumOf(xs[1..])
  }

  function MaxOf(xs: seq<real>): (m: real)
    requires xs != []
    ensures forall k :: 0 <= k < |xs| ==> xs[k] <= m
    ensures m in xs
  {
    if |xs| == 1 then xs[0]
    else
      var rest := MaxOf(xs[1..]);
      if xs[0] >= rest then xs[0] else rest
  }

  function MaxReal(a: real, b: real): real
  {
    if a >= b then a else b
  }

  predicate NonNegative(xs: seq<real>)
  {
    forall k :: 0 <= k < |xs| ==> xs[k] >= 0.0
  }

  /** `h1Thresh` and `h2Thresh` from the mean and the largest font size. */
  function Thresholds(lines: seq<Line>): (r: (real, real))
  {
    var sizes := Sizes(lines);
    var avg := if |sizes| > 0 then SumOf(sizes) / (|sizes| as real) else 0.0;
    var max := if |sizes| > 0 then MaxOf(sizes) else 0.0;
    (MaxReal(avg * 1.45, max * 0.9), MaxReal(avg * 1.2, max * 0.75))
  }

  lemma {:induction false} SumOfNonNegative(xs: seq<real>)
    requires NonNegative(xs)
    ensures SumOf(xs) >= 0.0
  {
    if xs != [] {
      SumOfNonNegative(xs[1..]);
    }
  }

  lemma {:induction false} SizesNonNegative(lines: seq<Line>)
    requires WellFormed(lines)
    ensures NonNegative(Sizes(lines))
  {
    if lines != [] {
      PartSizesNonNegative(lines[0].parts);
      SizesNonNegative(lines[1..]);
    }
  }

  lemma {:induction false} PartSizesNonNegative(parts: seq<Part>)
    requires forall j :: 0 <= j < |parts| ==> parts[j].fontSize >= 0.0
    ensures NonNegative(PartSizes(parts)) && |PartSizes(parts)| == |parts|
  {
    if parts != [] {
      PartSizesNonNegative(parts[1..]);
    }
  }

  /** Font sizes are never negative, so the h1 threshold is never below the
      h2 one: a line of any average size gets exactly one of h1, h2 and p,
      and h1 lines are the largest. */
  lemma ThresholdsOrdered(lines: seq<Line>)
    requires WellFormed(lines)
    ensures Thresholds(lines).0 >= Thresholds(lines).1
  {
    var sizes := Sizes(lines);
    SizesNonNegative(lines);
    if |sizes| > 0 {
      SumOfNonNegative(sizes);
      assert MaxOf(sizes) >= sizes[0] >= 0.0;
    }
  }

  // Rendering.

  datatype Tag = H1 | H2 | P

  /** One emitted element: its tag and its (unescaped) text. */
  datatype Element = Element(tag: Tag, text: string)

  function JoinedText(parts: seq<Part>): string
  {
    if parts == [] then "" else parts[0].text + JoinedText(parts[1..])
  }

  /** `line.parts.map(p => p.text).join('').trim()` */
  function LineText(line: Line): string
  {
    Trim(JoinedText(line.parts))
  }

  /** The mean font size of a line; an empty line counts as one part. */
  function LineAverage(line: Line): real
  {
    SumOf(PartSizes(line.parts)) / (if |line.parts| > 1 then |line.parts| else 1) as real
  }

  function Classify(average: real, h1: real, h2: real): (tag: Tag)
    ensures tag == H1 <==> average >= h1
    ensures tag == P <==> average < h1 && average < h2
  {
    if average >= h1 then H1 else if average >= h2 then H2 else P
  }

  /** The lines whose text is not blank, in order. */
  function Kept(lines: seq<Line>): (r: seq<Line>)
    ensures |r| <= |lines|
    ensures forall k :: 0 <= k < |r| ==> LineText(r[k]) != "" && r[k] in lines
    ensures forall k :: 0 <= k < |lines| && LineText(lines[k]) != "" ==> lines[k] in r
  {
    if lines == [] then []
    else
      var init := Kept(lines[..|lines| - 1]);
      assert forall l :: l in lines[..|lines| - 1] ==> l in lines;
      assert forall k :: 0 <= k < |lines| - 1 ==> lines[..|lines| - 1][k] == lines[k];
      if LineText(lines[|lines| - 1]) == "" then init else init + [lines[|lines| - 1]]
  }

  /** Keeping works line by line, so the kept lines of consecutive parts
      follow one another. */
  lemma {:induction false} KeptAppend(a: seq<Line>, b: seq<Line>)
    ensures Kept(a + b) == Kept(a) + Kept(b)
  {
    if b != [] {
      KeptAppend(a, b[..|b| - 1]);
      assert (a + b)[..|a + b| - 1] == a + b[..|b| - 1];
      assert (a + b)[|a + b| - 1] == b[|b| - 1];
    } else {
      assert a + b == a;
    }
  }

  /** A line is kept, in its place, exactly when its text is not blank. */
  lemma KeptInPlace(a: seq<Line>, l: Line, b: seq<Line>)
    ensures Kept(a + [l] + b) == Kept(a) + (if LineText(l) == "" then [] else [l]) + Kept(b)
  {
    KeptAppend(a + [l], b);
    KeptAppend(a, [l]);
    assert [l][..0] == [];
  }

  /** The elements emitted for the lines: one per line whose text is not
      blank, carrying that text and the tag its mean font size earns. */
  function Elements(lines: seq<Line>, h1: real, h2: real): (es: seq<Element>)
    ensures |es| <= |lines|
    ensures forall k :: 0 <= k < |es| ==> es[k].text != ""
  {
    if lines == [] then []
    else
      var last := lines[|lines| - 1];
      var init := Elements(lines[..|lines| - 1], h1, h2);
      if LineText(last) == "" then init
      else init + [Element(Classify(LineAverage(last), h1, h2), LineText(last))]
  }

  /** The elements follow the kept lines one for one and in order, so the
      html elements and the plain-text lines match up. */
  lemma {:induction false} ElementsFollowKeptLines(lines: seq<Line>, h1: real, h2: real)
    ensures var es := Elements(lines, h1, h2);
      |es| == |Kept(lines)|
      && forall k :: 0 <= k < |es| ==>
           es[k].text == LineText(Kept(lines)[k])
           && es[k].tag == Classify(LineAverage(Kept(lines)[k]), h1, h2)
  {
    if lines != [] {
      ElementsFollowKeptLines(lines[..|lines| - 1], h1, h2);
    }
  }

  function Texts(es: seq<Element>): (ts: seq<string>)
    ensures |ts| == |es| && forall k :: 0 <= k < |es| ==> ts[k] == es[k].text
  {
    if es == [] then [] else Texts(es[..|es| - 1]) + [es[|es| - 1].text]
  }

  function ElementHtml(e: Element): string
  {
    match e.tag
      case H1 => "<h1>" + EscapeHtml(e.text) + "</h1>"
      case H2 => "<h2>" + EscapeHtml(e.text) + "</h2>"
      case P => "<p>" + EscapeHtml(e.text) + "</p>"
  }

  function BodyHtml(es: seq<Element>): string
  {
    if es == [] then "" else BodyHtml(es[..|es| - 1]) + ElementHtml(es[|es| - 1])
  }

  function OpenDiv(width: string, height: string): string
  {
    "<div class=\"pdf-page\" data-width=\"" + width + "\" data-height=\"" + height + "\">"
  }

  /** What one more line adds to the html and to the text lines. */
  lemma RenderStep(lines: seq<Line>, i: nat, h1: real, h2: real, open: string)
    requires i < |lines|
    ensures var es := Elements(lines[..i], h1, h2);
      var next := Elements(lines[..i + 1], h1, h2);
      var text := LineText(lines[i]);
      var e := Element(Classify(LineAverage(lines[i]), h1, h2), text);
      (text == "" ==> next == es)
      && (text != "" ==>
            open + BodyHtml(next) == (open + BodyHtml(es)) + ElementHtml(e)
            && Texts(next) == Texts(es) + [text])
  {
    assert lines[..i + 1][..i] == lines[..i];
    var es := Elements(lines[..i], h1, h2);
    var e := Element(Classify(LineAverage(lines[i]), h1, h2), LineText(lines[i]));
    if LineText(lines[i]) != "" {
      assert Elements(lines[..i + 1], h1, h2) == es + [e];
      assert (es + [e])[..|es|] == es;
      AppendAssociates(open, BodyHtml(es), ElementHtml(e));
    }
  }

  /** The `for (const line of lines)` loop: accumulates `html` and
      `asTextLines` from the same elements. */
  method Render(lines: seq<Line>, h1: real, h2: real, open: string)
    returns (html: string, texts: seq<string>)
    ensures html == open + BodyHtml(Elements(lines, h1, h2))
    ensures texts == Texts(Elements(lines, h1, h2))
  {
    html := open;
    texts := [];
    var i := 0;
    while i < |lines|
      invariant 0 <= i <= |lines|
      invariant html == open + BodyHtml(Elements(lines[..i], h1, h2))
      invariant texts == Texts(Elements(lines[..i], h1, h2))
    {
      var line := lines[i];
      var text := LineText(line);
      RenderStep(lines, i, h1, h2, open);
      if text != "" {
        texts := texts + [text];
        var average := LineAverage(line);
        var tag := if average >= h1 then H1 else if average >= h2 then H2 else P;
        html := html + ElementHtml(Element(tag, text));
      }
      i := i + 1;
    }
    assert lines[..i] == lines;
  }

  /** `buildHtmlFromTextItems`; the page width and height arrive already
      formatted as text. */
  method BuildHtmlFromTextItems(items: seq<TextItem>, width: string, height: string)
    returns (html: string, plain: string)
    ensures var lines := SortTopToBottom(Cluster(items));
      var es := Elements(lines, Thresholds(lines).0, Thresholds(lines).1);
      html == OpenDiv(width, height) + BodyHtml(es) + "</div>"
      && plain == Join(Texts(es), "\n")
  {
    var lines := ClusterLines(items);
    lines := SortTopToBottom(lines);
    var (h1, h2) := Thresholds(lines);
    var texts;
    html, texts := Render(lines, h1, h2, OpenDiv(width, height));
    html := html + "</div>";
    plain := Join(texts, "\n");
  }

  /** The page html always opens with the page div and closes it. */
  lemma PageHtmlFramed(es: seq<Element>, width: string, height: string)
    ensures var html := OpenDiv(width, height) + BodyHtml(es) + "</div>";
      |html| >= |OpenDiv(width, height)| + 6
      && html[..|OpenDiv(width, height)|] == OpenDiv(width, height)
      && html[|html| - 6..] == "</div>"
  {
  }

  /** Sorting keeps the clustered lines well formed, so the thresholds of
      the sorted lines are ordered. */
  lemma SortKeepsWellFormed(lines: seq<Line>)
    requires WellFormed(lines)
    ensures WellFormed(SortTopToBottom(lines))
  {
    var r := SortTopToBottom(lines);
    forall k | 0 <= k < |r|
      ensures r[k] in lines
    {
      assert r[k] in multiset(r);
    }
  }
}
