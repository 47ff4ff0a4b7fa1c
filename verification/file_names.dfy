/** Artifact file names written next to an upload: one PDF per page, one file
    per extracted image and one HTML file per detected table. */
module FileNames {
  import opened Strings

  /** The two image encodings the image extractor keeps. */
  datatype ImageExt = Jpg | Jp2

  function ExtText(e: ImageExt): string {
    match e
    case Jpg => "jpg"
    case Jp2 => "jp2"
  }

  /** `page-<n>.pdf` */
  function PagePdfName(pageNumber: nat): string {
    "page-" + NatToString(pageNumber) + ".pdf"
  }

  /** `image-p<page>-<idx>.<ext>` */
  function ImageName(pageNumber: nat, idx: nat, ext: ImageExt): string {
    "image-p" + NatToString(pageNumber) + "-" + NatToString(idx) + "." + ExtText(ext)
  }

  /** `table-p<page>-t<idx>.html` */
  function TableName(pageNumber: nat, idx: nat): string {
    "table-p" + NatToString(pageNumber) + "-t" + NatToString(idx) + ".html"
  }

  /** Position of the first `sep` in `s` (|s| when there is none). */
  function IndexOf(s: string, sep: char): nat {
    if s == [] then 0 else if s[0] == sep then 0 else 1 + IndexOf(s[1..], sep)
  }

  lemma {:induction false} IndexOfFirstSeparator(x: string, y: string, sep: char)
    requires sep !in x
    ensures IndexOf(x + [sep] + y, sep) == |x|
  {
    if x != [] {
      assert (x + [sep] + y)[1..] == x[1..] + [sep] + y;
      IndexOfFirstSeparator(x[1..], y, sep);
    }
  }

  /** A separator that occurs in neither left part splits two equal strings
      at the same place. */
  lemma SplitAtSeparator(x: string, y: string, x': string, y': string, sep: char)
    requires sep !in x && sep !in x'
    requires x + [sep] + y == x' + [sep] + y'
    ensures x == x' && y == y'
  {
    var s := x + [sep] + y;
    IndexOfFirstSeparator(x, y, sep);
    IndexOfFirstSeparator(x', y', sep);
    assert x == s[..|x|] == x';
    assert y == s[|x| + 1..] == y';
  }

  lemma DigitsHaveNo(n: nat, c: char)
    requires !IsDigit(c)
    ensures c !in NatToString(n)
  {
  }

  lemma {:induction false} PagePdfNameInjective(m: nat, n: nat)
    requires PagePdfName(m) == PagePdfName(n)
    ensures m == n
  {
    var a, b := NatToString(m), NatToString(n);
    assert PagePdfName(m) == "page-" + (a + ['.'] + "pdf");
    assert PagePdfName(n) == "page-" + (b + ['.'] + "pdf");
    assert a + ['.'] + "pdf" == b + ['.'] + "pdf" by {
      assert PagePdfName(m)[5..] == a + ['.'] + "pdf";
      assert PagePdfName(n)[5..] == b + ['.'] + "pdf";
    }
    DigitsHaveNo(m, '.');
    DigitsHaveNo(n, '.');
    SplitAtSeparator(a, "pdf", b, "pdf", '.');
    NatToStringInjective(m, n);
  }

  /** For natural-number arguments `imageName` is injective: the page, the
      index and the extension can all be read back from the name. */
  lemma {:induction false} ImageNameInjective(p: nat, i: nat, e: ImageExt, p': nat, i': nat, e': ImageExt)
    requires ImageName(p, i, e) == ImageName(p', i', e')
    ensures p == p' && i == i' && e == e'
  {
    var a, b, a', b' := NatToString(p), NatToString(i), NatToString(p'), NatToString(i');
    var tail, tail' := b + ['.'] + ExtText(e), b' + ['.'] + ExtText(e');
    ImageNameShape(p, i, e);
    ImageNameShape(p', i', e');
    DigitsHaveNo(p, '-');
    DigitsHaveNo(p', '-');
    SplitAtSeparator(a, tail, a', tail', '-');
    DigitsHaveNo(i, '.');
    DigitsHaveNo(i', '.');
    SplitAtSeparator(b, ExtText(e), b', ExtText(e'), '.');
    NatToStringInjective(p, p');
    NatToStringInjective(i, i');
    assert ExtText(e)[2] == ExtText(e')[2];
  }

  lemma ImageNameShape(p: nat, i: nat, e: ImageExt)
    ensures ImageName(p, i, e)[7..] == NatToString(p) + ['-'] + (NatToString(i) + ['.'] + ExtText(e))
  {
    var a, b := NatToString(p), NatToString(i);
    assert ImageName(p, i, e) == "image-p" + (a + ['-'] + (b + ['.'] + ExtText(e)));
  }

  /** For natural-number arguments `tableName` is injective. */
  lemma {:induction false} TableNameInjective(p: nat, i: nat, p': nat, i': nat)
    requires TableName(p, i) == TableName(p', i')
    ensures p == p' && i == i'
  {
    var a, b, a', b' := NatToString(p), NatToString(i), NatToString(p'), NatToString(i');
    var tail, tail' := b + ['.'] + "html", b' + ['.'] + "html";
    TableNameShape(p, i);
    TableNameShape(p', i');
    DigitsHaveNo(p, '-');
    DigitsHaveNo(p', '-');
    SplitAtSeparator(a, ['t'] + tail, a', ['t'] + tail', '-');
    assert tail == (['t'] + tail)[1..] == (['t'] + tail')[1..] == tail';
    DigitsHaveNo(i, '.');
    DigitsHaveNo(i', '.');
    SplitAtSeparator(b, "html", b', "html", '.');
    NatToStringInjective(p, p');
    NatToStringInjective(i, i');
  }

  lemma TableNameShape(p: nat, i: nat)
    ensures TableName(p, i)[7..] == NatToString(p) + ['-'] + (['t'] + (NatToString(i) + ['.'] + "html"))
  {
    var a, b := NatToString(p), NatToString(i);
    assert TableName(p, i) == "table-p" + (a + ['-'] + (['t'] + (b + ['.'] + "html")));
  }

  /** Page, image and table names never coincide: their first letters differ. */
  lemma NamesNeverCoincide(n: nat, p: nat, i: nat, e: ImageExt, p': nat, i': nat)
    ensures PagePdfName(n) != ImageName(p, i, e)
    ensures PagePdfName(n) != TableName(p', i')
    ensures ImageName(p, i, e) != TableName(p', i')
  {
    assert PagePdfName(n)[0] == 'p';
    assert ImageName(p, i, e)[0] == 'i';
    assert TableName(p', i')[0] == 't';
  }
}
