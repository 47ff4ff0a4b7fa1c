/** Selecting the JPEG and JPEG 2000 image streams of a PDF page. The PDF
    objects are abstracted: each entry of the page's XObject dictionary is
    reduced to whether it is there, whether it has a dictionary, the
    rendered `Subtype` and `Filter` of that dictionary, and the bytes of its
    stream. */
module ImageExtract {
  import opened Wrappers
  import opened FileNames

  /** One value of a `Filter` entry: `name` is its `.name` ("" when it has
      none, which JavaScript treats as false) and `text` is `String(v)`. */
  datatype FilterValue = FilterValue(name: string, text: string)

  /** The `Filter` entry of a dictionary: absent (or false), a single value,
      or an array of values. */
  datatype FilterEntry = NoFilter | Single(value: FilterValue) | Many(values: seq<FilterValue>)

  /** An image dictionary: `String(dict.get('Subtype'))` and its filters. */
  datatype Dict = Dict(subtype: string, filter: FilterEntry)

  /** An entry of the XObject dictionary: missing, an object without a
      dictionary, or an object with one together with the bytes
      `tryGetStreamBytes` returns (`None` for `null`, which covers a
      `getContents` that throws). */
  datatype XObject = Missing | NoDict | WithDict(dict: Dict, bytes: Option<seq<bv8>>)

  /** The page's `Resources`: none, no XObject dictionary, or the entries of
      that dictionary in `keys()` order. */
  datatype Resources = NoResources | NoXObjects | XObjects(entries: seq<XObject>)

  datatype Image = Image(idx: nat, ext: ImageExt, bytes: seq<bv8>)

  const DCT := "/DCTDecode"
  const JPX := "/JPXDecode"
  const ImageSubtype := "/Image"

  /** `toName`: `/` and the name when there is one, otherwise `String(v)`. */
  function ToName(v: FilterValue): (n: string)
    ensures v.name != "" ==> n == "/" + v.name
    ensures v.name == "" ==> n == v.text
  {
    if v.name != "" then "/" + v.name else v.text
  }

  /** `getFilters`: no dictionary or no filter gives none, an array filter
      one name per element, any other filter one name. */
  function GetFilters(d: Option<Dict>): (fs: seq<string>)
    ensures d.None? || d.value.filter.NoFilter? ==> fs == []
    ensures d.Some? && d.value.filter.Single? ==> fs == [ToName(d.value.filter.value)]
    ensures d.Some? && d.value.filter.Many? ==>
      |fs| == |d.value.filter.values|
      && forall k :: 0 <= k < |fs| ==> fs[k] == ToName(d.value.filter.values[k])
  {
    match d
    case None => []
    case Some(dict) =>
      match dict.filter
      case NoFilter => []
      case Single(v) => [ToName(v)]
      case Many(vs) => seq(|vs|, k requires 0 <= k < |vs| => ToName(vs[k]))
  }

  /** What the loop body keeps of one entry, with the extension it gives it;
      `None` for an entry it skips. */
  function Selected(x: XObject): Option<(ImageExt, seq<bv8>)>
  {
    if !x.WithDict? || x.dict.subtype != ImageSubtype then None
    else
      var filters := GetFilters(Some(x.dict));
      if DCT !in filters && JPX !in filters then None
      else if x.bytes.None? || x.bytes.value == [] then None
      else Some((if DCT in filters then Jpg else Jp2, x.bytes.value))
  }

  /** The rules of the loop body: an entry is kept exactly when it has a
      dictionary of subtype `/Image` whose filters name `/DCTDecode` or
      `/JPXDecode` and a non-empty stream; it is a `jpg` whenever
      `/DCTDecode` is among its filters, even next to `/JPXDecode`. */
  lemma SelectionRules(x: XObject)
    ensures Selected(x).Some? <==>
      x.WithDict? && x.dict.subtype == ImageSubtype
      && (DCT in GetFilters(Some(x.dict)) || JPX in GetFilters(Some(x.dict)))
      && x.bytes.Some? && x.bytes.value != []
    ensures Selected(x).Some? ==> Selected(x).value.1 == x.bytes.value
    ensures Selected(x).Some? ==>
      (Selected(x).value.0 == Jpg <==> DCT in GetFilters(Some(x.dict)))
  {
  }

  /** The images the loop collects from the entries, numbered from 1 in
      the order of the entries. */
  function Collected(entries: seq<XObject>): seq<Image>
  {
    if entries == [] then []
    else Visit(Collected(entries[..|entries| - 1]), entries[|entries| - 1])
  }

  /** The images after one more entry: a kept entry is numbered after
      the images before it. */
  function Visit(before: seq<Image>, x: XObject): seq<Image>
  {
    match Selected(x)
    case None => before
    case Some(picked) => before + [Image(|before| + 1, picked.0, picked.1)]
  }

  /** The selected entries in order, without numbers. */
  function Kept(entries: seq<XObject>): seq<(ImageExt, seq<bv8>)>
  {
    if entries == [] then []
    else
      var before := Kept(entries[..|entries| - 1]);
      match Selected(entries[|entries| - 1])
      case None => before
      case Some(picked) => before + [picked]
  }

  /** `extractImagesFromPage` on abstracted resources. */
  function ExtractImages(r: Resources): (out: seq<Image>)
    ensures !r.XObjects? ==> out == []
  {
    if r.XObjects? then Collected(r.entries) else []
  }

  /** The images are the kept entries in dictionary order, numbered
      1..n: a skipped entry, an empty stream included, uses no number. */
  lemma {:induction false} CollectedNumbersKept(entries: seq<XObject>)
    ensures |Collected(entries)| == |Kept(entries)|
    ensures forall k :: 0 <= k < |Collected(entries)| ==>
      Collected(entries)[k] == Image(k + 1, Kept(entries)[k].0, Kept(entries)[k].1)
  {
    if entries != [] {
      CollectedNumbersKept(entries[..|entries| - 1]);
    }
  }

  lemma {:induction false} KeptAppend(a: seq<XObject>, b: seq<XObject>)
    ensures Kept(a + b) == Kept(a) + Kept(b)
  {
    if b == [] {
      assert a + b == a;
    } else {
      KeptAppend(a, b[..|b| - 1]);
      assert (a + b)[..|a + b| - 1] == a + b[..|b| - 1];
      assert (a + b)[|a + b| - 1] == b[|b| - 1];
    }
  }

  /** An entry the loop keeps lands right after what the entries before it
      gave, and everything after it follows. */
  lemma KeptInOrder(a: seq<XObject>, x: XObject, b: seq<XObject>)
    requires Selected(x).Some?
    ensures Kept(a + [x] + b) == Kept(a) + [Selected(x).value] + Kept(b)
  {
    KeptAppend(a + [x], b);
    KeptAppend(a, [x]);
    assert [x][..0] == [];
  }

  /** An entry the loop skips contributes nothing. */
  lemma SkippedLeavesNoTrace(a: seq<XObject>, x: XObject, b: seq<XObject>)
    requires Selected(x).None?
    ensures Kept(a + [x] + b) == Kept(a) + Kept(b)
  {
    KeptAppend(a + [x], b);
    KeptAppend(a, [x]);
    assert [x][..0] == [];
  }

  lemma CollectedStep(entries: seq<XObject>, i: nat)
    requires i < |entries|
    ensures Collected(entries[..i + 1]) == Visit(Collected(entries[..i]), entries[i])
  {
    assert entries[..i + 1][..i] == entries[..i];
  }

  /** The body of the loop for one entry: each `continue` leaves the
      images and the counter as they are. */
  method VisitEntry(x: XObject, out0: seq<Image>, idx0: nat) returns (out: seq<Image>, idx: nat)
    requires idx0 == |out0|
    ensures idx == |out|
    ensures out == Visit(out0, x)
  {
    out, idx := out0, idx0;
    SelectionRules(x);
    if x.Missing? || x.NoDict? {
      return;
    }
    if x.dict.subtype != ImageSubtype {
      return;
    }
    var filters := GetFilters(Some(x.dict));
    var isJpeg := DCT in filters;
    var isJpx := JPX in filters;
    if !isJpeg && !isJpx {
      return;
    }
    if x.bytes.None? || |x.bytes.value| == 0 {
      return;
    }
    idx := idx + 1;
    out := out + [Image(idx, if isJpeg then Jpg else Jp2, x.bytes.value)];
  }

  /** The loop over `xObjDict.keys()` with its counter `idx`. */
  method ExtractImagesFromPage(r: Resources) returns (out: seq<Image>)
    ensures out == ExtractImages(r)
  {
    out := [];
    if !r.XObjects? {
      return;
    }
    var entries := r.entries;
    var idx := 0;
    var i := 0;
    while i < |entries|
      invariant 0 <= i <= |entries|
      invariant out == Collected(entries[..i])
      invariant idx == |out|
    {
      CollectedStep(entries, i);
      out, idx := VisitEntry(entries[i], out, idx);
      i := i + 1;
    }
    assert entries[..i] == entries;
  }
}
