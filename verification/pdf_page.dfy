/** The page pipeline of an upload: one page record per page, upserted by
    (upload, page number) first as pending and then as done with its text
    and html; the images and the plain-text tables of each page; and the
    tables a whole-file visual extractor reports, with their own per-page
    counter. The PDF libraries, the file system and the table repositories
    are abstracted: each page arrives as its text items, its size and its
    image resources, and files are a map from path to content. */
module PdfPage {
  import opened Wrappers
  import opened Strings
  import opened Json
  import opened FileNames
  import HtmlFromText
  import TableText
  import ImageExtract
  import Upload

  datatype PageStatus = Pending | Done

  /** A row of `processed_pdfs`. */
  datatype PageRecord = PageRecord(
    id: string, uploadId: string, pageNumber: nat, pagePdfPath: Option<string>,
    extractedText: Option<string>, extractedHtml: Option<string>, status: PageStatus)

  /** A row of `processed_pdf_tables`. */
  datatype TableRecord = TableRecord(processedPdfId: string, index: nat, tablePath: string)

  /** A row of `processed_pdf_images`. */
  datatype ImageRecord = ImageRecord(processedPdfId: string, index: nat, imagePath: string)

  /** What a written file holds: the single-page PDF of a page (its bytes
      are not modelled), a text file, or image bytes. */
  datatype FileContent = PagePdf(pageNumber: nat) | Text(text: string) | Bytes(bytes: seq<bv8>)

  /** The three repositories, the written files, and the counter that
      stands for generated row ids. */
  datatype Store = Store(
    pages: seq<PageRecord>, tables: seq<TableRecord>, images: seq<ImageRecord>,
    files: map<string, FileContent>, nextId: nat)

  /** `path.join(dir, name)`, without normalisation. */
  function PathJoin(dir: string, name: string): string
  {
    dir + "/" + name
  }

  function PageId(n: nat): string
  {
    "pdf-" + NatToString(n)
  }

  // ---------------------------------------------------------------------
  // Page records

  predicate HasKey(r: PageRecord, uploadId: string, pageNumber: nat)
  {
    r.uploadId == uploadId && r.pageNumber == pageNumber
  }

  /** The record a `(uploadId, pageNumber)` lookup finds, if any. */
  function PageIndex(pages: seq<PageRecord>, uploadId: string, pageNumber: nat): (i: Option<nat>)
    ensures i.Some? ==> (i.value < |pages| && HasKey(pages[i.value], uploadId, pageNumber)
      && forall k :: 0 <= k < i.value ==> !HasKey(pages[k], uploadId, pageNumber))
    ensures i.None? ==> forall k :: 0 <= k < |pages| ==> !HasKey(pages[k], uploadId, pageNumber)
  {
    if pages == [] then None
    else if HasKey(pages[0], uploadId, pageNumber) then Some(0)
    else
      var rest := PageIndex(pages[1..], uploadId, pageNumber);
      if rest.None? then None else Some(rest.value + 1)
  }

  /** The first record with a key is the one `PageIndex` finds. */
  lemma {:induction false} PageIndexIs(pages: seq<PageRecord>, uploadId: string, pageNumber: nat, i: nat)
    requires i < |pages| && HasKey(pages[i], uploadId, pageNumber)
    requires forall k :: 0 <= k < i ==> !HasKey(pages[k], uploadId, pageNumber)
    ensures PageIndex(pages, uploadId, pageNumber) == Some(i)
  {
    if i > 0 {
      PageIndexIs(pages[1..], uploadId, pageNumber, i - 1);
    }
  }

  /** The columns an upsert writes: first the page PDF path with no text
      yet, then the rendered html and the plain text. */
  datatype PageUpdate = MarkPending(pagePdfPath: string) | MarkDone(html: string, text: string)

  function Apply(r: PageRecord, u: PageUpdate): PageRecord
  {
    match u
    case MarkPending(path) =>
      r.(pagePdfPath := Some(path), extractedText := None, extractedHtml := None, status := Pending)
    case MarkDone(html, text) =>
      r.(extractedText := Some(text), extractedHtml := Some(html), status := Done)
  }

  /** `processedRepo.upsert(values, { conflictPaths: ['uploadId', 'pageNumber'] })`:
      the record with that key is updated in place; without one a record
      is inserted, with a fresh id and the columns not written left null. */
  function Upsert(st: Store, uploadId: string, pageNumber: nat, u: PageUpdate): (r: Store)
    ensures PageIndex(r.pages, uploadId, pageNumber).Some?
    ensures r.tables == st.tables && r.images == st.images && r.files == st.files
    ensures PageIndex(st.pages, uploadId, pageNumber).Some? ==>
      var i := PageIndex(st.pages, uploadId, pageNumber).value;
      |r.pages| == |st.pages| && r.nextId == st.nextId && r.pages[i] == Apply(st.pages[i], u)
      && forall k :: 0 <= k < |st.pages| && k != i ==> r.pages[k] == st.pages[k]
    ensures PageIndex(st.pages, uploadId, pageNumber).None? ==>
      |r.pages| == |st.pages| + 1 && r.nextId == st.nextId + 1 && r.pages[..|st.pages|] == st.pages
      && r.pages[|st.pages|] == Apply(PageRecord(PageId(st.nextId), uploadId, pageNumber, None, None, None, Pending), u)
  {
    match PageIndex(st.pages, uploadId, pageNumber)
    case Some(i) =>
      var pages := st.pages[i := Apply(st.pages[i], u)];
      PageIndexIs(pages, uploadId, pageNumber, i);
      st.(pages := pages)
    case None =>
      var created := PageRecord(PageId(st.nextId), uploadId, pageNumber, None, None, None, Pending);
      var pages := st.pages + [Apply(created, u)];
      PageIndexIs(pages, uploadId, pageNumber, |st.pages|);
      st.(pages := pages, nextId := st.nextId + 1)
  }

  /** No two page records share an `(uploadId, pageNumber)` key, as the
      unique index on those two columns demands. */
  ghost predicate UniquePages(pages: seq<PageRecord>)
  {
    forall i, j :: 0 <= i < j < |pages| ==> !HasKey(pages[j], pages[i].uploadId, pages[i].pageNumber)
  }

  /** An upsert keeps the keys unique: it rewrites the record with the key
      in place, or appends one for a key no record has. */
  lemma UpsertKeepsPagesUnique(st: Store, uploadId: string, pageNumber: nat, u: PageUpdate)
    requires UniquePages(st.pages)
    ensures UniquePages(Upsert(st, uploadId, pageNumber, u).pages)
  {
    var r := Upsert(st, uploadId, pageNumber, u);
    match PageIndex(st.pages, uploadId, pageNumber)
    case Some(i) =>
      assert forall k :: 0 <= k < |st.pages| ==>
        r.pages[k].uploadId == st.pages[k].uploadId && r.pages[k].pageNumber == st.pages[k].pageNumber;
    case None =>
      assert r.pages[..|st.pages|] == st.pages;
      assert HasKey(r.pages[|st.pages|], uploadId, pageNumber);
  }

  /** The record a `(uploadId, pageNumber)` lookup returns. */
  function RecordOf(pages: seq<PageRecord>, uploadId: string, pageNumber: nat): Option<PageRecord>
  {
    match PageIndex(pages, uploadId, pageNumber)
    case Some(i) => Some(pages[i])
    case None => None
  }

  /** An upsert leaves the record of every other page as it was. */
  lemma UpsertOtherKey(st: Store, uploadId: string, n: nat, u: PageUpdate, m: nat)
    requires m != n
    ensures RecordOf(Upsert(st, uploadId, n, u).pages, uploadId, m) == RecordOf(st.pages, uploadId, m)
  {
    var r := Upsert(st, uploadId, n, u);
    assert forall k :: 0 <= k < |st.pages| ==>
      r.pages[k].uploadId == st.pages[k].uploadId && r.pages[k].pageNumber == st.pages[k].pageNumber;
    match PageIndex(st.pages, uploadId, m)
    case Some(j) =>
      PageIndexIs(r.pages, uploadId, m, j);
    case None =>
      assert forall k :: 0 <= k < |r.pages| ==> !HasKey(r.pages[k], uploadId, m);
  }

  /** After an upsert the page's record is its old record, or a fresh one,
      with the update applied. */
  lemma UpsertSameKey(st: Store, uploadId: string, n: nat, u: PageUpdate)
    ensures RecordOf(Upsert(st, uploadId, n, u).pages, uploadId, n)
      == Some(Apply(RecordOf(st.pages, uploadId, n).GetOr(
           PageRecord(PageId(st.nextId), uploadId, n, None, None, None, Pending)), u))
  {
    var r := Upsert(st, uploadId, n, u);
    match PageIndex(st.pages, uploadId, n)
    case Some(i) =>
      PageIndexIs(r.pages, uploadId, n, i);
    case None =>
      PageIndexIs(r.pages, uploadId, n, |st.pages|);
  }

  /** Under unique keys the record a lookup finds is the only one with its
      key. */
  lemma OnlyRecordWithKey(pages: seq<PageRecord>, uploadId: string, n: nat, k: nat)
    requires UniquePages(pages) && k < |pages| && HasKey(pages[k], uploadId, n)
    ensures PageIndex(pages, uploadId, n) == Some(k)
  {
    var i := PageIndex(pages, uploadId, n).value;
    if i != k {
      assert false;
    }
  }

  /** The two upserts of a page leave exactly its record with the page PDF
      path, the text and the html, marked done; every other record is
      unchanged. */
  lemma TwoPhaseUpsert(st: Store, uploadId: string, pageNumber: nat, path: string, html: string, text: string)
    ensures var after := Upsert(Upsert(st, uploadId, pageNumber, MarkPending(path)), uploadId, pageNumber, MarkDone(html, text));
      var i := PageIndex(after.pages, uploadId, pageNumber).value;
      after.pages[i].pagePdfPath == Some(path) && after.pages[i].extractedText == Some(text)
      && after.pages[i].extractedHtml == Some(html) && after.pages[i].status == Done
      && (PageIndex(st.pages, uploadId, pageNumber).Some? ==>
            |after.pages| == |st.pages| && after.pages[i].id == st.pages[i].id)
      && (PageIndex(st.pages, uploadId, pageNumber).None? ==>
            |after.pages| == |st.pages| + 1 && after.pages[..|st.pages|] == st.pages)
      && (forall k :: 0 <= k < |st.pages| && k != i ==> after.pages[k] == st.pages[k])
      && (UniquePages(st.pages) ==>
            UniquePages(after.pages)
            && forall k :: 0 <= k < |after.pages| && HasKey(after.pages[k], uploadId, pageNumber) ==> k == i)
  {
    var mid := Upsert(st, uploadId, pageNumber, MarkPending(path));
    if UniquePages(st.pages) {
      UpsertKeepsPagesUnique(st, uploadId, pageNumber, MarkPending(path));
      UpsertKeepsPagesUnique(mid, uploadId, pageNumber, MarkDone(html, text));
    }
    var i := PageIndex(mid.pages, uploadId, pageNumber).value;
    var after := Upsert(mid, uploadId, pageNumber, MarkDone(html, text));
    if PageIndex(st.pages, uploadId, pageNumber).Some? {
      PageIndexIs(mid.pages, uploadId, pageNumber, PageIndex(st.pages, uploadId, pageNumber).value);
    } else {
      PageIndexIs(mid.pages, uploadId, pageNumber, |st.pages|);
    }
    PageIndexIs(after.pages, uploadId, pageNumber, i);
  }

  // ---------------------------------------------------------------------
  // One page of text

  /** One page as the PDF libraries deliver it: its text items, its size
      already rendered as text, and its image resources. */
  datatype PageInput = PageInput(
    items: seq<HtmlFromText.TextItem>, width: string, height: string,
    resources: ImageExtract.Resources)

  /** The html and the plain text `buildHtmlFromTextItems` gives a page. */
  function PageHtml(p: PageInput): string
  {
    var lines := HtmlFromText.SortTopToBottom(HtmlFromText.Cluster(p.items));
    var (h1, h2) := HtmlFromText.Thresholds(lines);
    HtmlFromText.OpenDiv(p.width, p.height) + HtmlFromText.BodyHtml(HtmlFromText.Elements(lines, h1, h2)) + "</div>"
  }

  function PagePlain(p: PageInput): string
  {
    var lines := HtmlFromText.SortTopToBottom(HtmlFromText.Cluster(p.items));
    var (h1, h2) := HtmlFromText.Thresholds(lines);
    Join(HtmlFromText.Texts(HtmlFromText.Elements(lines, h1, h2)), "\n")
  }

  /** `<section data-page="N">html</section>` */
  function Section(pageNumber: nat, html: string): string
  {
    "<section data-page=\"" + NatToString(pageNumber) + "\">" + html + "</section>"
  }

  /** The tables `buildTablesFromPlainText` finds in a page's text. */
  function TextTablesHtml(plain: string): (htmls: seq<string>)
  {
    var tables := TableText.Tables(TableText.TrimAll(TableText.SplitLines(plain)));
    seq(|tables|, k requires 0 <= k < |tables| => TableText.TableHtml(TableText.LayOut(tables[k])))
  }

  /** The images of a page written and recorded, each under its own index. */
  function SaveImages(st: Store, slugDir: string, pageNumber: nat, processedId: string,
                      imgs: seq<ImageExtract.Image>): (r: Store)
    ensures r.pages == st.pages && r.tables == st.tables && r.nextId == st.nextId
  {
    if imgs == [] then st
    else
      var s := SaveImages(st, slugDir, pageNumber, processedId, imgs[..|imgs| - 1]);
      var img := imgs[|imgs| - 1];
      var path := PathJoin(slugDir, ImageName(pageNumber, img.idx, img.ext));
      s.(files := s.files[path := Bytes(img.bytes)],
         images := s.images + [ImageRecord(processedId, img.idx, path)])
  }

  /** `detectAndSaveTablesForPage`: the k-th table found in the text is
      written and recorded under index k. */
  function SaveTextTables(st: Store, slugDir: string, pageNumber: nat, processedId: string,
                          htmls: seq<string>): (r: Store)
    ensures r.pages == st.pages && r.images == st.images && r.nextId == st.nextId
  {
    if htmls == [] then st
    else
      var s := SaveTextTables(st, slugDir, pageNumber, processedId, htmls[..|htmls| - 1]);
      var path := PathJoin(slugDir, TableName(pageNumber, |htmls|));
      s.(files := s.files[path := Text(htmls[|htmls| - 1])],
         tables := s.tables + [TableRecord(processedId, |htmls|, path)])
  }

  lemma SaveTextTablesStep(st: Store, slugDir: string, pageNumber: nat, processedId: string,
                           htmls: seq<string>, k: nat, path: string)
    requires k < |htmls| && path == PathJoin(slugDir, TableName(pageNumber, k + 1))
    ensures var s := SaveTextTables(st, slugDir, pageNumber, processedId, htmls[..k]);
      SaveTextTables(st, slugDir, pageNumber, processedId, htmls[..k + 1])
      == s.(files := s.files[path := Text(htmls[k])], tables := s.tables + [TableRecord(processedId, k + 1, path)])
  {
    assert htmls[..k + 1][..k] == htmls[..k];
  }

  lemma PathJoinInjective(dir: string, a: string, b: string)
    requires PathJoin(dir, a) == PathJoin(dir, b)
    ensures a == b
  {
    assert a == PathJoin(dir, a)[|dir| + 1..];
  }

  /** The k-th text table of a page (from 0) is recorded after the `base`
      earlier tables under index k + 1, and its file holds its html. */
  predicate TableNumbered(r: Store, base: nat, slugDir: string, pageNumber: nat, processedId: string,
                          htmls: seq<string>, k: nat)
  {
    var path := PathJoin(slugDir, TableName(pageNumber, k + 1));
    k < |htmls| && base + k < |r.tables|
    && r.tables[base + k] == TableRecord(processedId, k + 1, path)
    && path in r.files && r.files[path] == Text(htmls[k])
  }

  /** The text tables of a page are recorded under indices 1..k in the order
      they were found, after every table recorded before. */
  lemma {:induction false} TextTablesNumbered(st: Store, slugDir: string, pageNumber: nat,
                                              processedId: string, htmls: seq<string>)
    ensures var r := SaveTextTables(st, slugDir, pageNumber, processedId, htmls);
      |r.tables| == |st.tables| + |htmls| && r.tables[..|st.tables|] == st.tables
      && forall k: nat :: k < |htmls| ==> TableNumbered(r, |st.tables|, slugDir, pageNumber, processedId, htmls, k)
  {
    if htmls != [] {
      var n := |htmls|;
      TextTablesNumbered(st, slugDir, pageNumber, processedId, htmls[..n - 1]);
      var s := SaveTextTables(st, slugDir, pageNumber, processedId, htmls[..n - 1]);
      var r := SaveTextTables(st, slugDir, pageNumber, processedId, htmls);
      forall k: nat | k < n
        ensures TableNumbered(r, |st.tables|, slugDir, pageNumber, processedId, htmls, k)
      {
        if k < n - 1 {
          assert TableNumbered(s, |st.tables|, slugDir, pageNumber, processedId, htmls[..n - 1], k);
          var path := PathJoin(slugDir, TableName(pageNumber, k + 1));
          if path == PathJoin(slugDir, TableName(pageNumber, n)) {
            PathJoinInjective(slugDir, TableName(pageNumber, k + 1), TableName(pageNumber, n));
            TableNameInjective(pageNumber, k + 1, pageNumber, n);
          }
          assert htmls[..n - 1][k] == htmls[k];
        }
      }
      assert r.tables[..|st.tables|] == s.tables[..|st.tables|];
    }
  }

  /** One iteration of the text loop: the page is marked done, its images
      and then its plain-text tables are saved against the record the
      lookup finds. */
  function PageStep(st: Store, uploadId: string, slugDir: string, pageNumber: nat, p: PageInput): Store
  {
    var s1 := Upsert(st, uploadId, pageNumber, MarkDone(Section(pageNumber, PageHtml(p)), PagePlain(p)));
    var processed := s1.pages[PageIndex(s1.pages, uploadId, pageNumber).value];
    var s2 := SaveImages(s1, slugDir, pageNumber, processed.id, ImageExtract.ExtractImages(p.resources));
    SaveTextTables(s2, slugDir, pageNumber, processed.id, TextTablesHtml(processed.extractedText.GetOr("")))
  }

  /** The first loop: pages 1..n written as single-page PDFs and upserted
      as pending. */
  function PendingPhase(st: Store, uploadId: string, slugDir: string, n: nat): Store
  {
    if n == 0 then st
    else
      var s := PendingPhase(st, uploadId, slugDir, n - 1);
      var path := PathJoin(slugDir, PagePdfName(n));
      Upsert(s.(files := s.files[path := PagePdf(n)]), uploadId, n, MarkPending(path))
  }

  /** The second loop, over the pages in order. */
  function TextPhase(st: Store, uploadId: string, slugDir: string, pages: seq<PageInput>): Store
  {
    if pages == [] then st
    else PageStep(TextPhase(st, uploadId, slugDir, pages[..|pages| - 1]), uploadId, slugDir, |pages|, pages[|pages| - 1])
  }

  /** Pages 1..n of the upload have records carrying their page PDF paths. */
  ghost predicate PathsUpTo(cur: seq<PageRecord>, uploadId: string, slugDir: string, n: nat)
  {
    forall m :: 1 <= m <= n ==>
      RecordOf(cur, uploadId, m).Some?
      && RecordOf(cur, uploadId, m).value.pagePdfPath == Some(PathJoin(slugDir, PagePdfName(m)))
  }

  /** One pending step extends `PathsUpTo` by its own page. */
  lemma PathsStep(before: seq<PageRecord>, after: seq<PageRecord>, uploadId: string, slugDir: string, n: nat, prior: PageRecord)
    requires n >= 1 && PathsUpTo(before, uploadId, slugDir, n - 1)
    requires forall m :: m != n ==> RecordOf(after, uploadId, m) == RecordOf(before, uploadId, m)
    requires RecordOf(after, uploadId, n) == Some(Apply(prior, MarkPending(PathJoin(slugDir, PagePdfName(n)))))
    ensures PathsUpTo(after, uploadId, slugDir, n)
  {
    forall m | 1 <= m <= n
      ensures RecordOf(after, uploadId, m).Some?
        && RecordOf(after, uploadId, m).value.pagePdfPath == Some(PathJoin(slugDir, PagePdfName(m)))
    {
      if m < n {
        assert RecordOf(after, uploadId, m) == RecordOf(before, uploadId, m);
      }
    }
  }

  /** One step of the first loop: write page n's PDF, then mark its record
      pending with that path. */
  lemma PendingStepRecords(s: Store, uploadId: string, slugDir: string, n: nat)
    requires n >= 1 && PathsUpTo(s.pages, uploadId, slugDir, n - 1)
    ensures var path := PathJoin(slugDir, PagePdfName(n));
      PathsUpTo(Upsert(s.(files := s.files[path := PagePdf(n)]), uploadId, n, MarkPending(path)).pages, uploadId, slugDir, n)
    ensures var path := PathJoin(slugDir, PagePdfName(n));
      UniquePages(s.pages) ==> UniquePages(Upsert(s.(files := s.files[path := PagePdf(n)]), uploadId, n, MarkPending(path)).pages)
  {
    var path := PathJoin(slugDir, PagePdfName(n));
    var s' := s.(files := s.files[path := PagePdf(n)]);
    var r := Upsert(s', uploadId, n, MarkPending(path));
    forall m | m != n
      ensures RecordOf(r.pages, uploadId, m) == RecordOf(s.pages, uploadId, m)
    {
      UpsertOtherKey(s', uploadId, n, MarkPending(path), m);
    }
    UpsertSameKey(s', uploadId, n, MarkPending(path));
    PathsStep(s.pages, r.pages, uploadId, slugDir, n,
      RecordOf(s.pages, uploadId, n).GetOr(PageRecord(PageId(s.nextId), uploadId, n, None, None, None, Pending)));
    if UniquePages(s.pages) {
      UpsertKeepsPagesUnique(s', uploadId, n, MarkPending(path));
    }
  }

  /** After the first loop every page 1..n has a record carrying its page
      PDF path, and the keys stay unique. */
  lemma {:induction false} PendingPhaseRecords(st: Store, uploadId: string, slugDir: string, n: nat)
    ensures PathsUpTo(PendingPhase(st, uploadId, slugDir, n).pages, uploadId, slugDir, n)
    ensures UniquePages(st.pages) ==> UniquePages(PendingPhase(st, uploadId, slugDir, n).pages)
  {
    if n > 0 {
      PendingPhaseRecords(st, uploadId, slugDir, n - 1);
      PendingStepRecords(PendingPhase(st, uploadId, slugDir, n - 1), uploadId, slugDir, n);
    }
  }

  /** What the second loop writes into the record of page m. */
  function DoneUpdate(m: nat, p: PageInput): PageUpdate
  {
    MarkDone(Section(m, PageHtml(p)), PagePlain(p))
  }

  /** One text step touches only the record of its own page. */
  lemma PageStepRecords(st: Store, uploadId: string, slugDir: string, n: nat, p: PageInput, m: nat)
    ensures m != n ==> RecordOf(PageStep(st, uploadId, slugDir, n, p).pages, uploadId, m) == RecordOf(st.pages, uploadId, m)
    ensures m == n && RecordOf(st.pages, uploadId, n).Some? ==>
      RecordOf(PageStep(st, uploadId, slugDir, n, p).pages, uploadId, n)
        == Some(Apply(RecordOf(st.pages, uploadId, n).value, DoneUpdate(n, p)))
    ensures UniquePages(st.pages) ==> UniquePages(PageStep(st, uploadId, slugDir, n, p).pages)
  {
    var s1 := Upsert(st, uploadId, n, DoneUpdate(n, p));
    assert PageStep(st, uploadId, slugDir, n, p).pages == s1.pages;
    if m != n {
      UpsertOtherKey(st, uploadId, n, DoneUpdate(n, p), m);
    } else {
      UpsertSameKey(st, uploadId, n, DoneUpdate(n, p));
    }
    if UniquePages(st.pages) {
      UpsertKeepsPagesUnique(st, uploadId, n, DoneUpdate(n, p));
    }
  }

  /** Pages 1..|pages| had records in `orig` and now carry them marked done
      with their html and text. */
  ghost predicate DoneUpTo(orig: seq<PageRecord>, cur: seq<PageRecord>, uploadId: string, pages: seq<PageInput>)
  {
    forall m :: 1 <= m <= |pages| ==>
      RecordOf(orig, uploadId, m).Some?
      && RecordOf(cur, uploadId, m) == Some(Apply(RecordOf(orig, uploadId, m).value, DoneUpdate(m, pages[m - 1])))
  }

  /** Records of page numbers above n are those of `orig`. */
  ghost predicate SameAbove(orig: seq<PageRecord>, cur: seq<PageRecord>, uploadId: string, n: nat)
  {
    forall m :: m > n ==> RecordOf(cur, uploadId, m) == RecordOf(orig, uploadId, m)
  }

  /** One text step extends `DoneUpTo` by its own page. */
  lemma DoneStep(orig: seq<PageRecord>, before: seq<PageRecord>, after: seq<PageRecord>, uploadId: string, pages: seq<PageInput>)
    requires pages != []
    requires DoneUpTo(orig, before, uploadId, pages[..|pages| - 1]) && SameAbove(orig, before, uploadId, |pages| - 1)
    requires RecordOf(orig, uploadId, |pages|).Some?
    requires forall m :: m != |pages| ==> RecordOf(after, uploadId, m) == RecordOf(before, uploadId, m)
    requires RecordOf(after, uploadId, |pages|)
      == Some(Apply(RecordOf(before, uploadId, |pages|).value, DoneUpdate(|pages|, pages[|pages| - 1])))
    ensures DoneUpTo(orig, after, uploadId, pages) && SameAbove(orig, after, uploadId, |pages|)
  {
    var n := |pages|;
    forall m | 1 <= m <= n
      ensures RecordOf(after, uploadId, m) == Some(Apply(RecordOf(orig, uploadId, m).value, DoneUpdate(m, pages[m - 1])))
    {
      if m < n {
        assert pages[..n - 1][m - 1] == pages[m - 1];
        assert RecordOf(after, uploadId, m) == RecordOf(before, uploadId, m);
      } else {
        assert RecordOf(before, uploadId, n) == RecordOf(orig, uploadId, n);
      }
    }
    forall m | m > n
      ensures RecordOf(after, uploadId, m) == RecordOf(orig, uploadId, m)
    {
      assert RecordOf(after, uploadId, m) == RecordOf(before, uploadId, m);
    }
  }

  /** After the second loop over pages that all have records, page m's
      record is its old one marked done with the page's html and text;
      records of later page numbers are untouched. */
  lemma {:induction false} TextPhaseRecords(st: Store, uploadId: string, slugDir: string, pages: seq<PageInput>)
    requires forall m :: 1 <= m <= |pages| ==> RecordOf(st.pages, uploadId, m).Some?
    ensures DoneUpTo(st.pages, TextPhase(st, uploadId, slugDir, pages).pages, uploadId, pages)
    ensures SameAbove(st.pages, TextPhase(st, uploadId, slugDir, pages).pages, uploadId, |pages|)
    ensures UniquePages(st.pages) ==> UniquePages(TextPhase(st, uploadId, slugDir, pages).pages)
  {
    if pages != [] {
      var n := |pages|;
      var init := pages[..n - 1];
      TextPhaseRecords(st, uploadId, slugDir, init);
      var before := TextPhase(st, uploadId, slugDir, init);
      var after := PageStep(before, uploadId, slugDir, n, pages[n - 1]);
      assert TextPhase(st, uploadId, slugDir, pages) == after;
      forall m | m != n
        ensures RecordOf(after.pages, uploadId, m) == RecordOf(before.pages, uploadId, m)
      {
        PageStepRecords(before, uploadId, slugDir, n, pages[n - 1], m);
      }
      PageStepRecords(before, uploadId, slugDir, n, pages[n - 1], n);
      DoneStep(st.pages, before.pages, after.pages, uploadId, pages);
    }
  }

  // ---------------------------------------------------------------------
  // Visual tables

  /** One entry of the extractor's `pageTables`: `Number(pt.page)` when it
      is an integer (`None` for `NaN` or a fraction) and the raw tables. */
  datatype PageTables = PageTables(page: Option<int>, tables: seq<Json>)

  /** How the whole-file extractor ends: it cannot be loaded or reports an
      error (both are caught), or it reports its page tables. */
  datatype Extractor = ExtractorFails | Reports(pageTables: seq<PageTables>)

  const NotAFunction := "row.map is not a function"

  /** `tableRows?.[0]`: the first element of an array, the `"0"` property
      of an object; nothing else yields an array. */
  function FirstRow(t: Json): Option<Json>
  {
    if t.JArr? && |t.items| > 0 then Some(t.items[0])
    else if t.JObj? && "0" in t.fields then Some(t.fields["0"])
    else None
  }

  /** `String(cell ?? '')` for each cell of a row. */
  function CellTexts(cells: seq<Json>): (texts: seq<string>)
    ensures |texts| == |cells|
  {
    seq(|cells|, i requires 0 <= i < |cells| => DisplayOr(Some(cells[i]), ""))
  }

  /** The rows of a visual table: an array whose first element is an array
      is kept as rows, any other array becomes a single row, anything else
      a single cell. A kept "row" that is not an array makes `row.map`
      throw. Every table has at least one row. */
  function NormaliseRows(t: Json): (r: Result<seq<seq<string>>>)
    ensures r.Ok? ==> |r.value| >= 1
    ensures (FirstRow(t).Some? && FirstRow(t).value.JArr?) ==>
      (r.Ok? <==> t.JArr? && forall k :: 0 <= k < |t.items| ==> t.items[k].JArr?)
    ensures (FirstRow(t).Some? && FirstRow(t).value.JArr?) && r.Ok? ==>
      |r.value| == |t.items| && forall k :: 0 <= k < |t.items| ==> r.value[k] == CellTexts(t.items[k].items)
    ensures !(FirstRow(t).Some? && FirstRow(t).value.JArr?) && t.JArr? ==> r == Ok([CellTexts(t.items)])
    ensures !t.JArr? && !(FirstRow(t).Some? && FirstRow(t).value.JArr?) ==> r == Ok([[DisplayOr(Some(t), "")]])
  {
    var first := FirstRow(t);
    if first.Some? && first.value.JArr? then
      if t.JArr? && forall k :: 0 <= k < |t.items| ==> t.items[k].JArr? then
        Ok(seq(|t.items|, k requires 0 <= k < |t.items| && t.items[k].JArr? => CellTexts(t.items[k].items)))
      else Err(NotAFunction)
    else if t.JArr? then Ok([CellTexts(t.items)])
    else Ok([[DisplayOr(Some(t), "")]])
  }

  function CellsHtml(cells: seq<string>): string
  {
    if cells == [] then ""
    else CellsHtml(cells[..|cells| - 1]) + "<td>" + HtmlFromText.EscapeHtml(cells[|cells| - 1]) + "</td>"
  }

  function RowsHtml(rows: seq<seq<string>>): string
  {
    if rows == [] then ""
    else RowsHtml(rows[..|rows| - 1]) + "<tr>" + CellsHtml(rows[|rows| - 1]) + "</tr>"
  }

  const VisualOpen := "<table data-detected=\"pdf-table-extractor\">"

  function VisualTableHtml(rows: seq<seq<string>>): string
  {
    VisualOpen + RowsHtml(rows) + "</table>"
  }

  /** The store during the visual pass, the per-page counters, and whether
      a table has thrown (the pass then never settles). */
  datatype Visual = Visual(st: Store, counters: map<nat, nat>, stuck: bool)

  function Counter(counters: map<nat, nat>, pageNo: nat): nat
  {
    if pageNo in counters then counters[pageNo] else 0
  }

  /** One visual table: the page's counter moves on, and the table is
      written and recorded under it. */
  function SaveVisualTable(v: Visual, slugDir: string, pageNo: nat, processedId: string, t: Json): (r: Visual)
    ensures v.st.tables <= r.st.tables && r.st.pages == v.st.pages
  {
    SaveRows(v, slugDir, pageNo, processedId, NormaliseRows(t))
  }

  /** The same step once the table's rows have been normalised, or have
      failed to. */
  function SaveRows(v: Visual, slugDir: string, pageNo: nat, processedId: string,
                    normalised: Result<seq<seq<string>>>): (r: Visual)
    ensures v.st.tables <= r.st.tables && r.st.pages == v.st.pages
  {
    if v.stuck then v
    else
      var idx := Counter(v.counters, pageNo) + 1;
      match normalised
      case Err(_) => v.(counters := v.counters[pageNo := idx], stuck := true)
      case Ok(rows) =>
        var path := PathJoin(slugDir, TableName(pageNo, idx));
        Visual(v.st.(files := v.st.files[path := Text(VisualTableHtml(rows))],
                     tables := v.st.tables + [TableRecord(processedId, idx, path)]),
               v.counters[pageNo := idx], false)
  }

  /** A table that normalises is written under the next number of its
      page and recorded after the tables already there. */
  lemma SaveVisualTableOk(v: Visual, slugDir: string, pageNo: nat, processedId: string, t: Json,
                          rows: seq<seq<string>>, idx: nat, path: string)
    requires !v.stuck && NormaliseRows(t) == Ok(rows)
    requires idx == Counter(v.counters, pageNo) + 1 && path == PathJoin(slugDir, TableName(pageNo, idx))
    ensures SaveVisualTable(v, slugDir, pageNo, processedId, t)
      == Visual(v.st.(files := v.st.files[path := Text(VisualTableHtml(rows))],
                      tables := v.st.tables + [TableRecord(processedId, idx, path)]),
                v.counters[pageNo := idx], false)
  {
  }

  /** A table that does not normalise stops the page's loop after taking
      its number. */
  lemma SaveVisualTableErr(v: Visual, slugDir: string, pageNo: nat, processedId: string, t: Json)
    requires !v.stuck && NormaliseRows(t).Err?
    ensures SaveVisualTable(v, slugDir, pageNo, processedId, t)
      == Visual(v.st, v.counters[pageNo := Counter(v.counters, pageNo) + 1], true)
  {
  }

  function SaveVisualTables(v: Visual, slugDir: string, pageNo: nat, processedId: string, ts: seq<Json>): (r: Visual)
    ensures v.st.tables <= r.st.tables && r.st.pages == v.st.pages
  {
    if ts == [] then v
    else SaveVisualTable(SaveVisualTables(v, slugDir, pageNo, processedId, ts[..|ts| - 1]), slugDir, pageNo, processedId, ts[|ts| - 1])
  }

  /** `idByPage`: page number to record id, a later record overriding an
      earlier one. */
  function IdByPage(rows: seq<PageRecord>): (ids: map<nat, string>)
    ensures forall p :: p in ids <==> exists k :: 0 <= k < |rows| && rows[k].pageNumber == p
  {
    if rows == [] then map[]
    else
      var before := IdByPage(rows[..|rows| - 1]);
      var ids := before[rows[|rows| - 1].pageNumber := rows[|rows| - 1].id];
      assert forall k :: 0 <= k < |rows| - 1 ==> rows[..|rows| - 1][k] == rows[k];
      ids
  }

  /** Each page maps to the id of the last record with that page number. */
  lemma {:induction false} IdByPageLastRecord(rows: seq<PageRecord>, p: nat)
    requires p in IdByPage(rows)
    ensures exists k :: (0 <= k < |rows| && rows[k].pageNumber == p && IdByPage(rows)[p] == rows[k].id
      && forall j :: k < j < |rows| ==> rows[j].pageNumber != p)
  {
    var n := |rows| - 1;
    var init := rows[..n];
    if rows[n].pageNumber == p {
      assert rows[n].pageNumber == p && IdByPage(rows)[p] == rows[n].id;
    } else {
      assert p in IdByPage(init);
      IdByPageLastRecord(init, p);
      var k :| 0 <= k < |init| && init[k].pageNumber == p && IdByPage(init)[p] == init[k].id
        && forall j :: k < j < |init| ==> init[j].pageNumber != p;
      assert rows[k] == init[k];
      assert forall j :: k < j < |rows| ==> rows[j].pageNumber != p by {
        forall j | k < j < |rows|
          ensures rows[j].pageNumber != p
        {
          if j < n {
            assert rows[j] == init[j];
          }
        }
      }
    }
  }

  /** Over the records of one upload with unique keys, each page maps to
      the id of its own record, the foreign key its visual tables need. */
  lemma IdByPageOfUniquePages(rows: seq<PageRecord>, uploadId: string, k: nat)
    requires UniquePages(rows) && forall j :: 0 <= j < |rows| ==> rows[j].uploadId == uploadId
    requires k < |rows|
    ensures rows[k].pageNumber in IdByPage(rows) && IdByPage(rows)[rows[k].pageNumber] == rows[k].id
  {
    var p := rows[k].pageNumber;
    IdByPageLastRecord(rows, p);
    var m :| 0 <= m < |rows| && rows[m].pageNumber == p && IdByPage(rows)[p] == rows[m].id
      && forall j :: m < j < |rows| ==> rows[j].pageNumber != p;
    if m != k {
      assert false;
    }
  }

  /** `pageNo` when the entry names a page that has a record. */
  function KnownPage(ids: map<nat, string>, pt: PageTables): Option<nat>
  {
    if pt.page.Some? && pt.page.value >= 0 && pt.page.value as nat in ids then Some(pt.page.value as nat)
    else None
  }

  /** One entry of `pageTables`; an entry for a page without a record is
      skipped. */
  function VisualPage(v: Visual, slugDir: string, ids: map<nat, string>, pt: PageTables): (r: Visual)
    ensures v.st.tables <= r.st.tables && r.st.pages == v.st.pages
  {
    if v.stuck then v
    else
      match KnownPage(ids, pt)
      case None => v
      case Some(p) =>
        SaveVisualTables(v.(counters := v.counters[p := Counter(v.counters, p)]), slugDir, p, ids[p], pt.tables)
  }

  function VisualAll(v: Visual, slugDir: string, ids: map<nat, string>, pts: seq<PageTables>): (r: Visual)
    ensures v.st.tables <= r.st.tables && r.st.pages == v.st.pages
  {
    if pts == [] then v
    else VisualPage(VisualAll(v, slugDir, ids, pts[..|pts| - 1]), slugDir, ids, pts[|pts| - 1])
  }

  /** The visual counter of a page starts at 1 whatever the text pass
      recorded: the first visual table of a page gets index 1 and the file
      name of the page's first text table. */
  lemma FirstVisualTableIsOne(v: Visual, slugDir: string, ids: map<nat, string>, p: nat, t: Json, more: seq<Json>)
    requires !v.stuck && p !in v.counters && p in ids
    requires NormaliseRows(t).Ok?
    ensures var r := VisualPage(v, slugDir, ids, PageTables(Some(p), [t] + more));
      |r.st.tables| > |v.st.tables|
      && r.st.tables[|v.st.tables|] == TableRecord(ids[p], 1, PathJoin(slugDir, TableName(p, 1)))
  {
    var pts := [t] + more;
    var v0 := v.(counters := v.counters[p := 0]);
    VisualTablesPrefix(v0, slugDir, p, ids[p], pts, 1);
    assert pts[..1] == [t];
    assert SaveVisualTables(v0, slugDir, p, ids[p], [t]) == SaveVisualTable(v0, slugDir, p, ids[p], t) by {
      assert [t][..0] == [];
    }
    SaveVisualTableOk(v0, slugDir, p, ids[p], t, NormaliseRows(t).value, 1, PathJoin(slugDir, TableName(p, 1)));
  }

  /** Later tables only append to what the first `n` tables recorded. */
  lemma {:induction false} VisualTablesPrefix(v: Visual, slugDir: string, pageNo: nat, processedId: string,
                                              ts: seq<Json>, n: nat)
    requires n <= |ts|
    ensures SaveVisualTables(v, slugDir, pageNo, processedId, ts[..n]).st.tables
      <= SaveVisualTables(v, slugDir, pageNo, processedId, ts).st.tables
  {
    if n < |ts| {
      VisualTablesPrefix(v, slugDir, pageNo, processedId, ts[..|ts| - 1], n);
      assert ts[..|ts| - 1][..n] == ts[..n];
    } else {
      assert ts[..n] == ts;
    }
  }

  /** An entry for a page number without a record changes nothing. */
  lemma UnknownPageSkipped(v: Visual, slugDir: string, ids: map<nat, string>, pt: PageTables)
    requires pt.page.None? || pt.page.value < 0 || pt.page.value as nat !in ids
    ensures VisualPage(v, slugDir, ids, pt) == v
  {
  }

  // ---------------------------------------------------------------------
  // The result

  /** `processedRepo.find({ where: { uploadId } })`, in stored order. */
  function UploadRows(pages: seq<PageRecord>, uploadId: string): (rows: seq<PageRecord>)
    ensures forall r :: r in rows <==> r in pages && r.uploadId == uploadId
  {
    if pages == [] then []
    else
      var before := UploadRows(pages[..|pages| - 1], uploadId);
      var last := pages[|pages| - 1];
      assert pages == pages[..|pages| - 1] + [last];
      if last.uploadId == uploadId then before + [last] else before
  }

  predicate SortedByPage(rows: seq<PageRecord>)
  {
    forall i, j :: 0 <= i < j < |rows| ==> rows[i].pageNumber <= rows[j].pageNumber
  }

  function InsertByPage(sorted: seq<PageRecord>, r: PageRecord): (out: seq<PageRecord>)
    requires SortedByPage(sorted)
    ensures SortedByPage(out)
    ensures multiset(out) == multiset(sorted) + multiset{r}
  {
    if sorted == [] then [r]
    else if r.pageNumber < sorted[0].pageNumber then
      SortedCons(r, sorted);
      [r] + sorted
    else
      var rest := InsertByPage(sorted[1..], r);
      InsertedAfterHead(sorted, r, rest);
      [sorted[0]] + rest
  }

  lemma SortedCons(h: PageRecord, rest: seq<PageRecord>)
    requires SortedByPage(rest)
    requires forall k :: 0 <= k < |rest| ==> h.pageNumber <= rest[k].pageNumber
    ensures SortedByPage([h] + rest)
  {
    var out := [h] + rest;
    forall i, j | 0 <= i < j < |out|
      ensures out[i].pageNumber <= out[j].pageNumber
    {
      if i > 0 {
        assert out[i] == rest[i - 1] && out[j] == rest[j - 1];
      } else {
        assert out[j] == rest[j - 1];
      }
    }
  }

  /** A record that does not precede the head goes somewhere after it. */
  lemma InsertedAfterHead(sorted: seq<PageRecord>, r: PageRecord, rest: seq<PageRecord>)
    requires sorted != [] && SortedByPage(sorted) && sorted[0].pageNumber <= r.pageNumber
    requires SortedByPage(rest) && multiset(rest) == multiset(sorted[1..]) + multiset{r}
    ensures SortedByPage([sorted[0]] + rest)
    ensures multiset([sorted[0]] + rest) == multiset(sorted) + multiset{r}
  {
    forall k | 0 <= k < |rest|
      ensures sorted[0].pageNumber <= rest[k].pageNumber
    {
      assert rest[k] in multiset(rest);
      if rest[k] != r {
        assert rest[k] in multiset(sorted[1..]);
        var q :| 0 <= q < |sorted[1..]| && sorted[1..][q] == rest[k];
        assert sorted[q + 1] == rest[k];
      }
    }
    SortedCons(sorted[0], rest);
    assert sorted == [sorted[0]] + sorted[1..];
  }

  /** `order: { pageNumber: 'ASC' }`. */
  function SortByPage(rows: seq<PageRecord>): (out: seq<PageRecord>)
    ensures SortedByPage(out)
    ensures multiset(out) == multiset(rows)
  {
    if rows == [] then []
    else
      assert rows == rows[..|rows| - 1] + [rows[|rows| - 1]];
      InsertByPage(SortByPage(rows[..|rows| - 1]), rows[|rows| - 1])
  }

  // ---------------------------------------------------------------------
  // splitAndExtract

  /** How `splitAndExtract` ends: the upload does not exist, a visual table
      threw inside the extractor's callback so the call never settles, or
      the upload's page records. */
  datatype Outcome = UploadNotFound | NeverSettles | Pages(records: seq<PageRecord>)

  /** The text passes of a known upload: pending records, then page text,
      images and text tables. */
  function TextPasses(st: Store, upload: Upload.UploadRow, uploadRoot: string, pages: seq<PageInput>): Store
  {
    var slugDir := PathJoin(uploadRoot, upload.slug);
    TextPhase(PendingPhase(st, upload.id, slugDir, |pages|), upload.id, slugDir, pages)
  }

  /** After the text passes each page 1..n of the upload has a record,
      marked done, with its page PDF path, its html section and its plain
      text; with unique keys it is the only record of that page. */
  lemma TextPassesPageRecords(st: Store, upload: Upload.UploadRow, uploadRoot: string, pages: seq<PageInput>, m: nat)
    requires 1 <= m <= |pages|
    ensures var r := TextPasses(st, upload, uploadRoot, pages);
      var rec := RecordOf(r.pages, upload.id, m);
      rec.Some? && rec.value.status == Done
      && rec.value.pagePdfPath == Some(PathJoin(PathJoin(uploadRoot, upload.slug), PagePdfName(m)))
      && rec.value.extractedHtml == Some(Section(m, PageHtml(pages[m - 1])))
      && rec.value.extractedText == Some(PagePlain(pages[m - 1]))
    ensures var r := TextPasses(st, upload, uploadRoot, pages);
      UniquePages(st.pages) ==>
        UniquePages(r.pages)
        && forall k :: 0 <= k < |r.pages| && HasKey(r.pages[k], upload.id, m) ==>
             Some(r.pages[k]) == RecordOf(r.pages, upload.id, m)
  {
    var slugDir := PathJoin(uploadRoot, upload.slug);
    var s := PendingPhase(st, upload.id, slugDir, |pages|);
    PendingPhaseRecords(st, upload.id, slugDir, |pages|);
    TextPhaseRecords(s, upload.id, slugDir, pages);
    var r := TextPasses(st, upload, uploadRoot, pages);
    assert r == TextPhase(s, upload.id, slugDir, pages);
    assert RecordOf(s.pages, upload.id, m).value.pagePdfPath == Some(PathJoin(slugDir, PagePdfName(m)));
    assert RecordOf(r.pages, upload.id, m)
      == Some(Apply(RecordOf(s.pages, upload.id, m).value, DoneUpdate(m, pages[m - 1])));
    if UniquePages(st.pages) {
      forall k | 0 <= k < |r.pages| && HasKey(r.pages[k], upload.id, m)
        ensures Some(r.pages[k]) == RecordOf(r.pages, upload.id, m)
      {
        OnlyRecordWithKey(r.pages, upload.id, m, k);
      }
    }
  }

  /** The repositories and files after `splitAndExtract`, and how it ends;
      both PDF libraries are taken to see the same pages. */
  function SplitAndExtractSpec(st: Store, uploads: seq<Upload.UploadRow>, uploadId: string, uploadRoot: string,
                               pages: seq<PageInput>, extractor: Extractor): (Store, Outcome)
  {
    match Upload.AssertUploadExists(uploads, uploadId)
    case Err(_) => (st, UploadNotFound)
    case Ok(upload) =>
      var slugDir := PathJoin(uploadRoot, upload.slug);
      var s := TextPasses(st, upload, uploadRoot, pages);
      match extractor
      case ExtractorFails => (s, Pages(SortByPage(UploadRows(s.pages, upload.id))))
      case Reports(pts) =>
        var v := VisualAll(Visual(s, map[], false), slugDir, IdByPage(UploadRows(s.pages, upload.id)), pts);
        if v.stuck then (v.st, NeverSettles)
        else (v.st, Pages(SortByPage(UploadRows(v.st.pages, upload.id))))
  }

  /** Whatever the visual extractor does, the tables the text passes
      recorded stay, in place; and a returned result is the upload's page
      records in ascending page order. */
  lemma TextTablesSurvive(st: Store, uploads: seq<Upload.UploadRow>, uploadId: string, uploadRoot: string,
                          pages: seq<PageInput>, extractor: Extractor)
    requires Upload.AssertUploadExists(uploads, uploadId).Ok?
    ensures var upload := Upload.AssertUploadExists(uploads, uploadId).value;
      var s := TextPasses(st, upload, uploadRoot, pages);
      var (after, out) := SplitAndExtractSpec(st, uploads, uploadId, uploadRoot, pages, extractor);
      s.tables <= after.tables && after.pages == s.pages
      && (out.Pages? ==>
            SortedByPage(out.records) && multiset(out.records) == multiset(UploadRows(s.pages, uploadId)))
  {
  }

  lemma TextPhaseStep(st: Store, uploadId: string, slugDir: string, pages: seq<PageInput>, k: nat)
    requires k < |pages|
    ensures TextPhase(st, uploadId, slugDir, pages[..k + 1])
      == PageStep(TextPhase(st, uploadId, slugDir, pages[..k]), uploadId, slugDir, k + 1, pages[k])
  {
    assert pages[..k + 1][..k] == pages[..k];
  }

  lemma SaveVisualTablesStep(v: Visual, slugDir: string, pageNo: nat, processedId: string, ts: seq<Json>, k: nat)
    requires k < |ts|
    ensures SaveVisualTables(v, slugDir, pageNo, processedId, ts[..k + 1])
      == SaveVisualTable(SaveVisualTables(v, slugDir, pageNo, processedId, ts[..k]), slugDir, pageNo, processedId, ts[k])
  {
    assert ts[..k + 1][..k] == ts[..k];
  }

  /** Once a table has thrown, the rest of the page's tables change nothing. */
  lemma {:induction false} VisualTablesStayStuck(v: Visual, slugDir: string, pageNo: nat, processedId: string,
                                                 ts: seq<Json>, n: nat)
    requires n <= |ts|
    requires SaveVisualTables(v, slugDir, pageNo, processedId, ts[..n]).stuck
    ensures SaveVisualTables(v, slugDir, pageNo, processedId, ts) == SaveVisualTables(v, slugDir, pageNo, processedId, ts[..n])
  {
    if n < |ts| {
      assert ts[..|ts| - 1][..n] == ts[..n];
      VisualTablesStayStuck(v, slugDir, pageNo, processedId, ts[..|ts| - 1], n);
    } else {
      assert ts[..n] == ts;
    }
  }

  /** Once a table has thrown, the remaining entries change nothing. */
  lemma {:induction false} VisualStaysStuck(v: Visual, slugDir: string, ids: map<nat, string>,
                                            pts: seq<PageTables>, n: nat)
    requires n <= |pts|
    requires VisualAll(v, slugDir, ids, pts[..n]).stuck
    ensures VisualAll(v, slugDir, ids, pts) == VisualAll(v, slugDir, ids, pts[..n])
  {
    if n < |pts| {
      assert pts[..|pts| - 1][..n] == pts[..n];
      VisualStaysStuck(v, slugDir, ids, pts[..|pts| - 1], n);
    } else {
      assert pts[..n] == pts;
    }
  }

  // ---------------------------------------------------------------------
  // The service

  /** The page repository, the table and image repositories and the files
      of `PdfPageService`. */
  class PdfPageService {
    var pages: seq<PageRecord>
    var tables: seq<TableRecord>
    var images: seq<ImageRecord>
    var files: map<string, FileContent>
    var nextId: nat

    function State(): Store
      reads this
    {
      Store(pages, tables, images, files, nextId)
    }

    constructor (st: Store)
      ensures State() == st
    {
      pages, tables, images, files, nextId := st.pages, st.tables, st.images, st.files, st.nextId;
    }

    /** `fsp.writeFile(path, content)`. */
    method WriteFile(path: string, content: FileContent)
      modifies this
      ensures State() == old(State()).(files := old(files)[path := content])
    {
      files := files[path := content];
    }

    /** `tableRepo.save(tableRepo.create(record))`. */
    method SaveTable(record: TableRecord)
      modifies this
      ensures State() == old(State()).(tables := old(tables) + [record])
    {
      tables := tables + [record];
    }

    /** `imageRepo.save(imageRepo.create(record))`. */
    method SaveImage(record: ImageRecord)
      modifies this
      ensures State() == old(State()).(images := old(images) + [record])
    {
      images := images + [record];
    }

    /** `processedRepo.upsert(..., { conflictPaths: ['uploadId', 'pageNumber'] })`. */
    method UpsertPage(uploadId: string, pageNumber: nat, u: PageUpdate)
      modifies this
      ensures State() == Upsert(old(State()), uploadId, pageNumber, u)
    {
      var after := Upsert(State(), uploadId, pageNumber, u);
      pages, nextId := after.pages, after.nextId;
    }

    /** `detectAndSaveTablesForPage`: the tables of the text, counted from 1. */
    method DetectAndSaveTablesForPage(slugDir: string, pageNumber: nat, processedId: string, plainText: string)
      modifies this
      ensures State() == SaveTextTables(old(State()), slugDir, pageNumber, processedId, TextTablesHtml(plainText))
    {
      var htmls := TableText.BuildTablesFromPlainText(plainText);
      assert htmls == TextTablesHtml(plainText);
      ghost var st0 := State();
      var idx := 0;
      while idx < |htmls|
        invariant 0 <= idx <= |htmls|
        invariant State() == SaveTextTables(st0, slugDir, pageNumber, processedId, htmls[..idx])
      {
        var filePath := PathJoin(slugDir, TableName(pageNumber, idx + 1));
        SaveTextTablesStep(st0, slugDir, pageNumber, processedId, htmls, idx, filePath);
        RecordTable(filePath, htmls[idx], TableRecord(processedId, idx + 1, filePath));
        idx := idx + 1;
      }
      assert htmls[..idx] == htmls;
    }

    /** The image loop of one page. */
    method SavePageImages(slugDir: string, pageNumber: nat, processedId: string, imgs: seq<ImageExtract.Image>)
      modifies this
      ensures State() == SaveImages(old(State()), slugDir, pageNumber, processedId, imgs)
    {
      ghost var st0 := State();
      var i := 0;
      while i < |imgs|
        invariant 0 <= i <= |imgs|
        invariant State() == SaveImages(st0, slugDir, pageNumber, processedId, imgs[..i])
      {
        assert imgs[..i + 1][..i] == imgs[..i];
        var img := imgs[i];
        var filePath := PathJoin(slugDir, ImageName(pageNumber, img.idx, img.ext));
        WriteFile(filePath, Bytes(img.bytes));
        SaveImage(ImageRecord(processedId, img.idx, filePath));
        i := i + 1;
      }
      assert imgs[..i] == imgs;
    }

    /** One iteration of the text loop of `splitAndExtract`. */
    method ExtractPage(uploadId: string, slugDir: string, pageNumber: nat, p: PageInput)
      modifies this
      ensures State() == PageStep(old(State()), uploadId, slugDir, pageNumber, p)
    {
      var html, plain := HtmlFromText.BuildHtmlFromTextItems(p.items, p.width, p.height);
      UpsertPage(uploadId, pageNumber, MarkDone(Section(pageNumber, html), plain));
      var processed := pages[PageIndex(pages, uploadId, pageNumber).value];
      var imgs := ImageExtract.ExtractImagesFromPage(p.resources);
      SavePageImages(slugDir, pageNumber, processed.id, imgs);
      DetectAndSaveTablesForPage(slugDir, pageNumber, processed.id, processed.extractedText.GetOr(""));
    }

    /** The extractor's success callback: every table of every known page,
        under that page's own counter; `stuck` when a table threw. */
    method OnPageTables(slugDir: string, idByPage: map<nat, string>, pts: seq<PageTables>) returns (stuck: bool)
      modifies this
      ensures var v := VisualAll(Visual(old(State()), map[], false), slugDir, idByPage, pts);
        State() == v.st && stuck == v.stuck
    {
      ghost var v0 := Visual(State(), map[], false);
      var perPageIdx: map<nat, nat> := map[];
      var n := 0;
      while n < |pts|
        invariant 0 <= n <= |pts|
        invariant VisualAll(v0, slugDir, idByPage, pts[..n]) == Visual(State(), perPageIdx, false)
      {
        assert pts[..n + 1][..n] == pts[..n];
        var pt := pts[n];
        n := n + 1;
        if pt.page.None? || pt.page.value < 0 || pt.page.value as nat !in idByPage {
          continue;
        }
        var pageNo := pt.page.value as nat;
        perPageIdx := perPageIdx[pageNo := Counter(perPageIdx, pageNo)];
        var thrown;
        perPageIdx, thrown := OnTablesOfPage(slugDir, pageNo, idByPage[pageNo], pt.tables, perPageIdx);
        if thrown {
          VisualStaysStuck(v0, slugDir, idByPage, pts, n);
          return true;
        }
      }
      assert pts[..n] == pts;
      return false;
    }

    /** The inner loop of the callback over the tables of one page. */
    method OnTablesOfPage(slugDir: string, pageNo: nat, processedId: string, ts: seq<Json>, counters0: map<nat, nat>)
      returns (counters: map<nat, nat>, stuck: bool)
      modifies this
      ensures SaveVisualTables(Visual(old(State()), counters0, false), slugDir, pageNo, processedId, ts)
        == Visual(State(), counters, stuck)
    {
      ghost var start := Visual(State(), counters0, false);
      counters := counters0;
      var k := 0;
      while k < |ts|
        invariant 0 <= k <= |ts|
        invariant SaveVisualTables(start, slugDir, pageNo, processedId, ts[..k]) == Visual(State(), counters, false)
      {
        SaveVisualTablesStep(start, slugDir, pageNo, processedId, ts, k);
        var thrown;
        counters, thrown := OnTable(slugDir, pageNo, processedId, ts[k], counters);
        if thrown {
          VisualTablesStayStuck(start, slugDir, pageNo, processedId, ts, k + 1);
          return counters, true;
        }
        k := k + 1;
      }
      assert ts[..k] == ts;
      return counters, false;
    }

    /** One table of a page: the counter moves on, then the table is
        normalised, written and recorded under it. */
    method OnTable(slugDir: string, pageNo: nat, processedId: string, t: Json, counters0: map<nat, nat>)
      returns (counters: map<nat, nat>, stuck: bool)
      modifies this
      ensures SaveVisualTable(Visual(old(State()), counters0, false), slugDir, pageNo, processedId, t)
        == Visual(State(), counters, stuck)
    {
      ghost var v0 := Visual(State(), counters0, false);
      counters := counters0[pageNo := Counter(counters0, pageNo) + 1];
      var idx := counters[pageNo];
      var rows := NormaliseRows(t);
      if rows.Err? {
        SaveVisualTableErr(v0, slugDir, pageNo, processedId, t);
        return counters, true;
      }
      var filePath := PathJoin(slugDir, TableName(pageNo, idx));
      SaveVisualTableOk(v0, slugDir, pageNo, processedId, t, rows.value, idx, filePath);
      RecordTable(filePath, VisualTableHtml(rows.value), TableRecord(processedId, idx, filePath));
      return counters, false;
    }

    /** Writes a table's file and saves its record. */
    method RecordTable(path: string, html: string, record: TableRecord)
      modifies this
      ensures State() == old(State()).(files := old(files)[path := Text(html)], tables := old(tables) + [record])
    {
      WriteFile(path, Text(html));
      SaveTable(record);
    }

    /** The two page loops of `splitAndExtract`. */
    method RunTextPasses(upload: Upload.UploadRow, uploadRoot: string, inputs: seq<PageInput>)
      modifies this
      ensures State() == TextPasses(old(State()), upload, uploadRoot, inputs)
    {
      var slugDir := PathJoin(uploadRoot, upload.slug);
      PendingPass(upload.id, slugDir, |inputs|);
      TextPass(upload.id, slugDir, inputs);
    }

    /** The first loop of `splitAndExtract`. */
    method PendingPass(uploadId: string, slugDir: string, totalPages: nat)
      modifies this
      ensures State() == PendingPhase(old(State()), uploadId, slugDir, totalPages)
    {
      ghost var st0 := State();
      var i := 0;
      while i < totalPages
        invariant 0 <= i <= totalPages
        invariant State() == PendingPhase(st0, uploadId, slugDir, i)
      {
        var pageNumber := i + 1;
        var pagePdfPath := PathJoin(slugDir, PagePdfName(pageNumber));
        WriteFile(pagePdfPath, PagePdf(pageNumber));
        UpsertPage(uploadId, pageNumber, MarkPending(pagePdfPath));
        i := i + 1;
      }
    }

    /** The second loop of `splitAndExtract`. */
    method TextPass(uploadId: string, slugDir: string, inputs: seq<PageInput>)
      modifies this
      ensures State() == TextPhase(old(State()), uploadId, slugDir, inputs)
    {
      ghost var st0 := State();
      var i := 0;
      while i < |inputs|
        invariant 0 <= i <= |inputs|
        invariant State() == TextPhase(st0, uploadId, slugDir, inputs[..i])
      {
        TextPhaseStep(st0, uploadId, slugDir, inputs, i);
        ExtractPage(uploadId, slugDir, i + 1, inputs[i]);
        i := i + 1;
      }
      assert inputs[..i] == inputs;
    }

    /** `splitAndExtract`. */
    method SplitAndExtract(uploads: seq<Upload.UploadRow>, uploadId: string, uploadRoot: string,
                           inputs: seq<PageInput>, extractor: Extractor) returns (out: Outcome)
      modifies this
      ensures (State(), out) == SplitAndExtractSpec(old(State()), uploads, uploadId, uploadRoot, inputs, extractor)
    {
      var found := Upload.AssertUploadExists(uploads, uploadId);
      if found.Err? {
        return UploadNotFound;
      }
      var upload := found.value;
      var slugDir := PathJoin(uploadRoot, upload.slug);
      RunTextPasses(upload, uploadRoot, inputs);
      var idByPage := IdsByPage(UploadRows(pages, upload.id));
      match extractor
      case ExtractorFails =>
        out := Pages(SortByPage(UploadRows(pages, upload.id)));
      case Reports(pts) =>
        var stuck := OnPageTables(slugDir, idByPage, pts);
        if stuck {
          return NeverSettles;
        }
        out := Pages(SortByPage(UploadRows(pages, upload.id)));
    }
  }

  /** `processedAll.forEach((r) => idByPage.set(r.pageNumber, r.id))`. */
  method IdsByPage(processedAll: seq<PageRecord>) returns (idByPage: map<nat, string>)
    ensures idByPage == IdByPage(processedAll)
  {
    idByPage := map[];
    var j := 0;
    while j < |processedAll|
      invariant 0 <= j <= |processedAll|
      invariant idByPage == IdByPage(processedAll[..j])
    {
      assert processedAll[..j + 1][..j] == processedAll[..j];
      idByPage := idByPage[processedAll[j].pageNumber := processedAll[j].id];
      j := j + 1;
    }
    assert processedAll[..j] == processedAll;
  }
}
