/** The upload service: choosing a file name that is not taken yet, the
    paging clamps of the upload listing, and the existence check used by the
    extraction pipeline. The upload directory is a finite set of taken file
    names; the upload table is a sequence of rows. */
module Upload {
  import opened Wrappers
  import opened Strings

  datatype UploadRow = UploadRow(
    id: string, originalName: string, slug: string, storedName: string,
    path: string, size: string, mimetype: string, createdAt: string)

  /** `${baseSlug}-${n}` */
  function Suffixed(baseSlug: string, n: nat): string {
    baseSlug + "-" + NatToString(n)
  }

  /** Which try produced `name`: 1 for `baseSlug + ext`, n for
      `baseSlug-n + ext`, 0 for anything else. */
  ghost function TryNumber(baseSlug: string, ext: string, name: string): nat {
    if name == baseSlug + ext then 1
    else if |name| > |baseSlug| + 1 + |ext| && name[..|baseSlug| + 1] == baseSlug + "-"
         && name[|name| - |ext|..] == ext
         && (forall k :: |baseSlug| + 1 <= k < |name| - |ext| ==> IsDigit(name[k]))
    then ParseDecimal(name[|baseSlug| + 1..|name| - |ext|])
    else 0
  }

  lemma TryNumberOfSuffixed(baseSlug: string, ext: string, n: nat)
    requires n >= 2
    ensures TryNumber(baseSlug, ext, Suffixed(baseSlug, n) + ext) == n
  {
    var d := NatToString(n);
    var name := Suffixed(baseSlug, n) + ext;
    assert name == baseSlug + "-" + d + ext;
    assert |name| != |baseSlug + ext|;
    assert name[..|baseSlug| + 1] == baseSlug + "-";
    assert name[|name| - |ext|..] == ext;
    assert name[|baseSlug| + 1..|name| - |ext|] == d;
    ParseNatToString(n);
  }

  lemma NextTry(baseSlug: string, ext: string, tried: set<string>, candidate: string, n: nat)
    requires forall t :: t in tried ==> TryNumber(baseSlug, ext, t) < n - 1
    requires TryNumber(baseSlug, ext, candidate + ext) == n - 1
    ensures candidate + ext !in tried
    ensures forall t :: t in tried + {candidate + ext} ==> TryNumber(baseSlug, ext, t) < n
  {
  }

  /** What holds before each try of `uniqueSlug`: `candidate` is try
      number `n - 1`, every earlier try is taken, and `tried` holds the
      earlier tries' file names. */
  ghost predicate SlugInvariant(baseSlug: string, ext: string, taken: set<string>,
                                tried: set<string>, candidate: string, n: nat)
  {
    n >= 2
    && (n == 2 ==> candidate == baseSlug && tried == {})
    && (n > 2 ==> candidate == Suffixed(baseSlug, n - 1) && baseSlug + ext in taken)
    && (forall k :: 2 <= k < n - 1 ==> Suffixed(baseSlug, k) + ext in taken)
    && tried <= taken
    && (forall t :: t in tried ==> TryNumber(baseSlug, ext, t) < n - 1)
    && TryNumber(baseSlug, ext, candidate + ext) == n - 1
  }

  /** A taken candidate moves the search on to the next number, and the
      set of taken names not yet tried shrinks. */
  lemma SlugStep(baseSlug: string, ext: string, taken: set<string>,
                 tried: set<string>, candidate: string, n: nat)
    requires SlugInvariant(baseSlug, ext, taken, tried, candidate, n)
    requires candidate + ext in taken
    ensures SlugInvariant(baseSlug, ext, taken, tried + {candidate + ext}, Suffixed(baseSlug, n), n + 1)
    ensures |taken - (tried + {candidate + ext})| < |taken - tried|
  {
    assert baseSlug + ext in taken;
    forall k | 2 <= k < n
      ensures Suffixed(baseSlug, k) + ext in taken
    {
      if k == n - 1 {
        assert candidate == Suffixed(baseSlug, k);
      }
    }
    NextTry(baseSlug, ext, tried, candidate, n);
    assert taken - (tried + {candidate + ext}) == (taken - tried) - {candidate + ext};
    TryNumberOfSuffixed(baseSlug, ext, n);
  }

  /** `uniqueSlug(baseSlug, ext)`: the first of `baseSlug`, `baseSlug-2`,
      `baseSlug-3`, ... whose file name is not taken. It terminates because
      the tried names are distinct and all taken, and `taken` is finite. */
  method UniqueSlug(baseSlug: string, ext: string, taken: set<string>) returns (slug: string)
    ensures slug + ext !in taken
    ensures baseSlug + ext !in taken ==> slug == baseSlug
    ensures baseSlug + ext in taken ==>
      exists n :: n >= 2 && slug == Suffixed(baseSlug, n)
        && forall k :: 2 <= k < n ==> Suffixed(baseSlug, k) + ext in taken
  {
    var candidate := baseSlug;
    var n := 2;
    ghost var tried: set<string> := {};
    while candidate + ext in taken
      invariant SlugInvariant(baseSlug, ext, taken, tried, candidate, n)
      decreases |taken - tried|
    {
      SlugStep(baseSlug, ext, taken, tried, candidate, n);
      tried := tried + {candidate + ext};
      candidate := Suffixed(baseSlug, n);
      n := n + 1;
    }
    slug := candidate;
    if n > 2 {
      assert slug == Suffixed(baseSlug, n - 1);
    }
  }

  const MaxPageSize := 100

  /** `take = Math.min(100, Math.max(1, limit))` */
  function Take(limit: int): (take: int)
    ensures 1 <= take <= MaxPageSize
    ensures 1 <= limit <= MaxPageSize ==> take == limit
    ensures limit < 1 ==> take == 1
    ensures limit > MaxPageSize ==> take == MaxPageSize
  {
    if limit < 1 then 1 else if limit > MaxPageSize then MaxPageSize else limit
  }

  /** `skip = (Math.max(1, page) - 1) * take`: the rows on the pages before
      the requested one, a page below 1 being read as page 1. */
  function Skip(page: int, take: int): (skip: nat)
    requires take >= 1
    ensures page <= 1 ==> skip == 0
    ensures page >= 1 ==> skip == (page - 1) * take
    ensures page >= 1 ==> skip >= page - 1
  {
    ((if page < 1 then 1 else page) - 1) * take
  }

  /** `listUploads(page, limit)` over the upload rows already ordered newest
      first: at most `take` rows starting at `skip`, and the total count. */
  function ListUploads(rows: seq<UploadRow>, page: int, limit: int): (r: (seq<UploadRow>, nat))
    ensures r.1 == |rows|
    ensures |r.0| <= Take(limit)
    ensures |r.0| > 0 ==> Skip(page, Take(limit)) + |r.0| <= |rows|
    ensures forall j :: 0 <= j < |r.0| ==> r.0[j] == rows[Skip(page, Take(limit)) + j]
  {
    var take := Take(limit);
    var skip := Skip(page, take);
    var from := if skip < |rows| then skip else |rows|;
    var to := if from + take < |rows| then from + take else |rows|;
    (rows[from..to], |rows|)
  }

  /** Paging covers the listing: row i is shown on page `i / take + 1`. */
  lemma ListUploadsCoversEveryRow(rows: seq<UploadRow>, limit: int, i: nat)
    requires i < |rows|
    ensures var take := Take(limit);
      var page := i / take + 1;
      var items := ListUploads(rows, page, limit).0;
      i % take < |items| && items[i % take] == rows[i]
  {
    var take := Take(limit);
    var r := i % take;
    var skip := Skip(i / take + 1, take);
    SkipOfRow(i, take);
    var to := if skip + take < |rows| then skip + take else |rows|;
    assert ListUploads(rows, i / take + 1, limit).0 == rows[skip..to];
  }

  /** Row i lies `i % take` rows after the start of page `i / take + 1`. */
  lemma SkipOfRow(i: nat, take: int)
    requires take >= 1
    ensures Skip(i / take + 1, take) + i % take == i && 0 <= i % take < take
  {
    var q, r := i / take, i % take;
    assert q * take + r == i;
    assert Skip(q + 1, take) == q * take;
  }

  /** `assertUploadExists(id)`: the first row with that id, or not-found. */
  function AssertUploadExists(rows: seq<UploadRow>, id: string): (r: Result<UploadRow>)
    ensures r.Err? <==> forall k :: 0 <= k < |rows| ==> rows[k].id != id
    ensures r.Ok? ==> r.value.id == id && r.value in rows
    ensures r.Ok? ==> exists k :: (0 <= k < |rows| && rows[k] == r.value
      && (forall j :: 0 <= j < k ==> rows[j].id != id))
  {
    if rows == [] then Err("Upload not found")
    else if rows[0].id == id then Ok(rows[0])
    else
      var r := AssertUploadExists(rows[1..], id);
      if r.Ok? then
        ghost var k :| 0 <= k < |rows| - 1 && rows[1..][k] == r.value
          && (forall j :: 0 <= j < k ==> rows[1..][j].id != id);
        assert rows[k + 1] == r.value;
        r
      else r
  }
}
