/** `slugify`: lower-cases a file name and reduces it to ASCII letters, digits
    and single hyphens. Only the ASCII behaviour is modelled: the Unicode
    decomposition step that strips diacritics is not part of this model, so a
    non-ASCII character is treated like any other non-alphanumeric one. */
module Slugify {
  import opened Strings

  /** The characters `[a-z0-9]` that survive slugification. */
  predicate IsSlugChar(c: char) { 'a' <= c <= 'z' || IsDigit(c) }

  predicate NoDoubleHyphen(s: string) {
    forall k :: 0 <= k < |s| - 1 ==> !(s[k] == '-' && s[k + 1] == '-')
  }

  /** What slugify promises of its output: only `[a-z0-9-]`, no hyphen at
      either end, and no two hyphens in a row. */
  predicate IsSlug(s: string) {
    && (forall k :: 0 <= k < |s| ==> IsSlugChar(s[k]) || s[k] == '-')
    && (s == [] || (s[0] != '-' && s[|s| - 1] != '-'))
    && NoDoubleHyphen(s)
  }

  /** The letters and digits of `s`, in order. */
  function Alphanumerics(s: string): string {
    if s == [] then []
    else (if IsSlugChar(s[0]) then [s[0]] else []) + Alphanumerics(s[1..])
  }

  /** Drops the leading run of characters outside `[a-z0-9]`. */
  function DropRun(s: string): (r: string)
    ensures |r| <= |s| && r == s[|s| - |r|..]
    ensures r == [] || IsSlugChar(r[0])
    ensures forall k :: 0 <= k < |s| - |r| ==> !IsSlugChar(s[k])
    ensures s != [] && !IsSlugChar(s[0]) ==> |r| < |s|
  {
    if s != [] && !IsSlugChar(s[0]) then DropRun(s[1..]) else s
  }

  /** `.replace(/[^a-z0-9]+/g, '-')`: every maximal run outside `[a-z0-9]`
      becomes one hyphen. */
  function Hyphenate(s: string): (r: string)
    ensures r == [] <==> s == []
    ensures s != [] && IsSlugChar(s[0]) ==> r[0] == s[0]
    ensures forall k :: 0 <= k < |r| ==> IsSlugChar(r[k]) || r[k] == '-'
    ensures NoDoubleHyphen(r)
    decreases |s|
  {
    if s == [] then []
    else if IsSlugChar(s[0]) then [s[0]] + Hyphenate(s[1..])
    else "-" + Hyphenate(DropRun(s))
  }

  /** A run of characters outside `[a-z0-9]`. */
  predicate IsRun(u: string) {
    u != [] && forall k :: 0 <= k < |u| ==> !IsSlugChar(u[k])
  }

  /** Dropping a whole run stops at the letter or digit after it. */
  lemma {:induction false} DropRunOfRun(u: string, b: string)
    requires forall k :: 0 <= k < |u| ==> !IsSlugChar(u[k])
    requires b == [] || IsSlugChar(b[0])
    ensures DropRun(u + b) == b
  {
    if u == [] {
      assert u + b == b;
    } else {
      assert (u + b)[0] == u[0];
      assert (u + b)[1..] == u[1..] + b;
      DropRunOfRun(u[1..], b);
    }
  }

  /** A run inside a text that ends in a letter or digit is dropped inside
      that text: what follows the text plays no part. */
  lemma {:induction false} DropRunAppend(a: string, rest: string)
    requires a != [] && IsSlugChar(a[|a| - 1])
    ensures DropRun(a + rest) == DropRun(a) + rest
    ensures DropRun(a) != [] && IsSlugChar(DropRun(a)[|DropRun(a)| - 1])
  {
    assert (a + rest)[0] == a[0];
    if !IsSlugChar(a[0]) {
      assert (a + rest)[1..] == a[1..] + rest;
      DropRunAppend(a[1..], rest);
    }
  }

  /** Hyphenation works piecewise across a boundary just after a letter or
      digit. */
  lemma {:induction false} HyphenateAppend(a: string, rest: string)
    requires a == [] || IsSlugChar(a[|a| - 1])
    ensures Hyphenate(a + rest) == Hyphenate(a) + Hyphenate(rest)
    decreases |a|
  {
    if a == [] {
      assert a + rest == rest;
    } else if IsSlugChar(a[0]) {
      assert (a + rest)[0] == a[0];
      assert (a + rest)[1..] == a[1..] + rest;
      HyphenateAppend(a[1..], rest);
    } else {
      assert (a + rest)[0] == a[0];
      DropRunAppend(a, rest);
      HyphenateAppend(DropRun(a), rest);
    }
  }

  /** The regular expression's promise: a maximal run of characters outside
      `[a-z0-9]` (one ended by a letter or digit on each side, or by the end
      of the text) becomes exactly one hyphen between its neighbours. */
  lemma RunBecomesHyphen(a: string, u: string, b: string)
    requires a == [] || IsSlugChar(a[|a| - 1])
    requires IsRun(u)
    requires b == [] || IsSlugChar(b[0])
    ensures Hyphenate(a + u + b) == Hyphenate(a) + "-" + Hyphenate(b)
  {
    Associative(a, u, b);
    RunThenRest(u, b);
    HyphenateAppend(a, u + b);
    Associative(Hyphenate(a), "-", Hyphenate(b));
  }

  /** Regrouping a concatenation, kept apart so that proofs about
      hyphenation need not redo it. */
  lemma Associative(p: string, q: string, r: string)
    ensures p + q + r == p + (q + r)
  {
  }

  /** A run followed by a text that starts with a letter or digit
      hyphenates to one hyphen before that text's hyphenation. */
  lemma RunThenRest(u: string, b: string)
    requires IsRun(u)
    requires b == [] || IsSlugChar(b[0])
    ensures Hyphenate(u + b) == "-" + Hyphenate(b)
  {
    assert (u + b)[0] == u[0];
    HyphenateAtRun(u + b);
    DropRunOfRun(u, b);
  }

  /** A text starting outside `[a-z0-9]` starts its hyphenation with one
      hyphen for its leading run. */
  lemma HyphenateAtRun(s: string)
    requires s != [] && !IsSlugChar(s[0])
    ensures Hyphenate(s) == "-" + Hyphenate(DropRun(s))
  {
  }

  /** Lower-casing leaves the slug ends of a joined text as they are. */
  lemma ToLowerJoin(a: string, u: string, b: string)
    requires IsSlug(a) && IsSlug(b)
    ensures ToLower(a + u + b) == a + ToLower(u) + b
  {
    var s, r := a + u + b, a + ToLower(u) + b;
    assert |ToLower(s)| == |r|;
    forall k | 0 <= k < |r|
      ensures ToLower(s)[k] == r[k]
    {
      if k < |a| {
        assert s[k] == a[k];
      } else if k < |a| + |u| {
        assert s[k] == u[k - |a|];
      } else {
        assert s[k] == b[k - |a| - |u|];
      }
    }
  }

  /** Trimming leaves a text without a hyphen at either end unchanged. */
  lemma TrimNothing(s: string)
    requires s != [] && s[0] != '-' && s[|s| - 1] != '-'
    ensures TrimHyphens(s) == s
  {
  }

  /** Joining two slugs with one hyphen makes no double hyphen. */
  lemma JoinHasNoDoubleHyphen(a: string, b: string)
    requires IsSlug(a) && a != [] && IsSlug(b) && b != []
    ensures NoDoubleHyphen(a + "-" + b)
  {
    var j := a + "-" + b;
    forall k | 0 <= k < |j| - 1
      ensures !(j[k] == '-' && j[k + 1] == '-')
    {
      if k < |a| - 1 {
        assert j[k] == a[k] && j[k + 1] == a[k + 1];
      } else if k == |a| - 1 {
        assert j[k] == a[|a| - 1];
      } else if k == |a| {
        assert j[k + 1] == b[0];
      } else {
        assert j[k] == b[k - |a| - 1] && j[k + 1] == b[k - |a|];
      }
    }
  }

  /** Two slugs joined by anything without letters or digits slugify to the
      two slugs joined by one hyphen. */
  lemma SlugifyJoinsWithHyphen(a: string, u: string, b: string)
    requires IsSlug(a) && a != [] && IsSlug(b) && b != []
    requires IsRun(ToLower(u))
    ensures Slugify(a + u + b) == a + "-" + b
  {
    ToLowerJoin(a, u, b);
    RunBecomesHyphen(a, ToLower(u), b);
    HyphenateSlug(a);
    HyphenateSlug(b);
    var j := a + "-" + b;
    assert Hyphenate(ToLower(a + u + b)) == j;
    assert j[0] == a[0] && j[|j| - 1] == b[|b| - 1];
    TrimNothing(j);
    JoinHasNoDoubleHyphen(a, b);
    CollapseWithoutDoubles(j);
  }

  /** `.replace(/^-+|-+$/g, '')` */
  function TrimHyphens(s: string): string {
    TrimTrailingHyphens(TrimLeadingHyphens(s))
  }

  function TrimLeadingHyphens(s: string): (r: string)
    ensures |r| <= |s| && r == s[|s| - |r|..]
    ensures r == [] || r[0] != '-'
    ensures forall k :: 0 <= k < |s| - |r| ==> s[k] == '-'
  {
    if s != [] && s[0] == '-' then TrimLeadingHyphens(s[1..]) else s
  }

  function TrimTrailingHyphens(s: string): (r: string)
    ensures |r| <= |s| && r == s[..|r|]
    ensures r == [] || r[|r| - 1] != '-'
    ensures forall k :: |r| <= k < |s| ==> s[k] == '-'
  {
    if s != [] && s[|s| - 1] == '-' then TrimTrailingHyphens(s[..|s| - 1]) else s
  }

  /** `.replace(/-{2,}/g, '-')` */
  function CollapseHyphens(s: string): string {
    if |s| >= 2 && s[0] == '-' && s[1] == '-' then CollapseHyphens(s[1..])
    else if s == [] then []
    else [s[0]] + CollapseHyphens(s[1..])
  }

  /** `slugify(input)` on ASCII input. */
  function Slugify(input: string): string {
    CollapseHyphens(TrimHyphens(Hyphenate(ToLower(input))))
  }

  lemma {:induction false} CollapseWithoutDoubles(s: string)
    requires NoDoubleHyphen(s)
    ensures CollapseHyphens(s) == s
  {
    if s != [] {
      assert NoDoubleHyphen(s[1..]);
      CollapseWithoutDoubles(s[1..]);
    }
  }

  lemma TrimKeepsShape(s: string)
    requires forall k :: 0 <= k < |s| ==> IsSlugChar(s[k]) || s[k] == '-'
    requires NoDoubleHyphen(s)
    ensures IsSlug(TrimHyphens(s))
    ensures TrimHyphens(s) == s[|s| - |TrimLeadingHyphens(s)|..][..|TrimHyphens(s)|]
  {
    var t := TrimLeadingHyphens(s);
    var r := TrimTrailingHyphens(t);
    assert forall k :: 0 <= k < |r| ==> r[k] == s[|s| - |t| + k];
  }

  /** Every output of slugify is a slug. */
  lemma SlugifyIsSlug(input: string)
    ensures IsSlug(Slugify(input))
  {
    var h := Hyphenate(ToLower(input));
    TrimKeepsShape(h);
    CollapseWithoutDoubles(TrimHyphens(h));
  }

  lemma {:induction false} HyphenateKeepsAlphanumerics(s: string)
    ensures Alphanumerics(Hyphenate(s)) == Alphanumerics(s)
    decreases |s|
  {
    if s == [] {
    } else if IsSlugChar(s[0]) {
      HyphenateKeepsAlphanumerics(s[1..]);
      assert (s[0..1] + Hyphenate(s[1..]))[1..] == Hyphenate(s[1..]);
    } else {
      var d := DropRun(s);
      HyphenateKeepsAlphanumerics(d);
      assert ("-" + Hyphenate(d))[1..] == Hyphenate(d);
      DropRunHasNoAlphanumerics(s);
    }
  }

  lemma {:induction false} DropRunHasNoAlphanumerics(s: string)
    ensures Alphanumerics(DropRun(s)) == Alphanumerics(s)
  {
    if s != [] && !IsSlugChar(s[0]) {
      DropRunHasNoAlphanumerics(s[1..]);
    }
  }

  lemma {:induction false} AlphanumericsAppend(a: string, b: string)
    ensures Alphanumerics(a + b) == Alphanumerics(a) + Alphanumerics(b)
  {
    if a != [] {
      assert (a + b)[0] == a[0];
      assert (a + b)[1..] == a[1..] + b;
      AlphanumericsAppend(a[1..], b);
    } else {
      assert a + b == b;
    }
  }

  lemma {:induction false} HyphensHaveNoAlphanumerics(s: string)
    requires forall k :: 0 <= k < |s| ==> s[k] == '-'
    ensures Alphanumerics(s) == []
  {
    if s != [] {
      HyphensHaveNoAlphanumerics(s[1..]);
    }
  }

  lemma TrimLeadingKeepsAlphanumerics(s: string)
    ensures Alphanumerics(TrimLeadingHyphens(s)) == Alphanumerics(s)
  {
    var t := TrimLeadingHyphens(s);
    var cut := s[..|s| - |t|];
    assert s == cut + t;
    AlphanumericsAppend(cut, t);
    HyphensHaveNoAlphanumerics(cut);
  }

  lemma TrimTrailingKeepsAlphanumerics(s: string)
    ensures Alphanumerics(TrimTrailingHyphens(s)) == Alphanumerics(s)
  {
    var r := TrimTrailingHyphens(s);
    var cut := s[|r|..];
    assert s == r + cut;
    AlphanumericsAppend(r, cut);
    HyphensHaveNoAlphanumerics(cut);
  }

  lemma TrimKeepsAlphanumerics(s: string)
    ensures Alphanumerics(TrimHyphens(s)) == Alphanumerics(s)
  {
    TrimLeadingKeepsAlphanumerics(s);
    TrimTrailingKeepsAlphanumerics(TrimLeadingHyphens(s));
  }

  lemma {:induction false} CollapseKeepsAlphanumerics(s: string)
    ensures Alphanumerics(CollapseHyphens(s)) == Alphanumerics(s)
  {
    if |s| >= 2 && s[0] == '-' && s[1] == '-' {
      CollapseKeepsAlphanumerics(s[1..]);
    } else if s != [] {
      CollapseKeepsAlphanumerics(s[1..]);
      assert ([s[0]] + CollapseHyphens(s[1..]))[1..] == CollapseHyphens(s[1..]);
    }
  }

  /** Letters (lower-cased) and digits of the input appear in the slug in the
      same order, and nothing else does apart from hyphens. */
  lemma SlugifyKeepsAlphanumerics(input: string)
    ensures Alphanumerics(Slugify(input)) == Alphanumerics(ToLower(input))
  {
    var h := Hyphenate(ToLower(input));
    HyphenateKeepsAlphanumerics(ToLower(input));
    TrimKeepsAlphanumerics(h);
    CollapseKeepsAlphanumerics(TrimHyphens(h));
  }

  /** A slug is only hyphens between alphanumerics, so one with no alphanumerics is empty. */
  lemma {:induction false} SlugWithoutAlphanumericsIsEmpty(s: string)
    requires IsSlug(s)
    requires Alphanumerics(s) == []
    ensures s == []
  {
  }

  /** Input with no ASCII letter or digit gives the empty slug. */
  lemma SlugifyWithoutAlphanumerics(input: string)
    requires Alphanumerics(ToLower(input)) == []
    ensures Slugify(input) == []
  {
    SlugifyIsSlug(input);
    SlugifyKeepsAlphanumerics(input);
    SlugWithoutAlphanumericsIsEmpty(Slugify(input));
  }

  lemma {:induction false} HyphenateSlug(s: string)
    requires forall k :: 0 <= k < |s| ==> IsSlugChar(s[k]) || s[k] == '-'
    requires NoDoubleHyphen(s)
    ensures Hyphenate(s) == s
    decreases |s|
  {
    if s == [] {
    } else if IsSlugChar(s[0]) {
      HyphenateSlug(s[1..]);
    } else {
      assert DropRun(s) == s[1..] by {
        assert s[1..] == [] || IsSlugChar(s[1..][0]);
      }
      HyphenateSlug(s[1..]);
    }
  }

  lemma {:induction false} ToLowerSlug(s: string)
    requires forall k :: 0 <= k < |s| ==> IsSlugChar(s[k]) || s[k] == '-'
    ensures ToLower(s) == s
  {
  }

  /** Slugifying a slug changes nothing; in particular slugify is idempotent. */
  lemma SlugIsFixpoint(s: string)
    requires IsSlug(s)
    ensures Slugify(s) == s
  {
    ToLowerSlug(s);
    HyphenateSlug(s);
    CollapseWithoutDoubles(s);
  }

  lemma SlugifyIdempotent(input: string)
    ensures Slugify(Slugify(input)) == Slugify(input)
  {
    SlugifyIsSlug(input);
    SlugIsFixpoint(Slugify(input));
  }
}
