/** `URLCache._key_path` of collection/scrape.py: the file a URL is cached in. The path
    is `cache_dir / netloc`, extended by each `/`-separated piece of the URL's path in
    turn; the file name is the query's `key=value` pairs, sorted by key and joined by
    `&`, or `?` when the query is empty. `urlparse` and `parse_qsl` are library code: the
    model takes them as given functions. */
module UrlKey {
  import Naming

  /** A POSIX `pathlib` path as its components (`PurePath.parts`); an absolute path starts
      with the component "/". */
  datatype Path = Path(parts: seq<string>)

  /** The six components of `urllib.parse.ParseResult`. */
  datatype Url = Url(scheme: string, netloc: string, path: string, params: string, query: string, fragment: string)

  /** `AnyURL = Union[str, ParseResult]`. */
  datatype AnyUrl = Raw(text: string) | Parsed(url: Url)

  /** A decoded query pair, as `parse_qsl` returns it. */
  type Pair = (string, string)

  /** The library parsers: `urlparse` and `parse_qsl`. */
  datatype UrlLib = UrlLib(urlparse: string -> Url, parseQsl: string -> seq<Pair>)

  // ---------------------------------------------------------------------------------
  // `str.split` with a one-character separator

  /** The position of the first `c` in `s`, or `|s|` when there is none. */
  function FirstIndex(s: string, c: char): (i: nat)
    ensures i <= |s|
    ensures i < |s| ==> s[i] == c
    ensures forall j :: 0 <= j < i ==> s[j] != c
  {
    if s == [] then 0
    else if s[0] == c then 0
    else 1 + FirstIndex(s[1..], c)
  }

  /** `s.split(c)`: the pieces between the occurrences of `c`; there is always at least
      one, and none contains `c`. */
  function Split(s: string, c: char): (ps: seq<string>)
    ensures |ps| >= 1
    ensures forall i :: 0 <= i < |ps| ==> c !in ps[i]
    decreases |s|
  {
    var i := FirstIndex(s, c);
    if i == |s| then [s] else [s[..i]] + Split(s[i + 1..], c)
  }

  /** Joining the pieces with the separator gives the string back. */
  lemma {:induction false} SplitJoin(s: string, c: char)
    ensures Naming.JoinWith([c], Split(s, c)) == s
    decreases |s|
  {
    var i := FirstIndex(s, c);
    if i < |s| {
      var rest := Split(s[i + 1..], c);
      SplitJoin(s[i + 1..], c);
      assert Split(s, c) == [s[..i]] + rest;
      assert Naming.JoinWith([c], Split(s, c)) == s[..i] + [c] + Naming.JoinWith([c], rest);
      assert s == s[..i] + [c] + s[i + 1..];
    }
  }

  /** Splitting a join of pieces that do not contain the separator gives the pieces back. */
  lemma {:induction false} JoinSplit(ws: seq<string>, c: char)
    requires |ws| >= 1
    requires forall i :: 0 <= i < |ws| ==> c !in ws[i]
    ensures Split(Naming.JoinWith([c], ws), c) == ws
  {
    if |ws| == 1 {
      assert FirstIndex(ws[0], c) == |ws[0]|;
    } else {
      var tail := Naming.JoinWith([c], ws[1..]);
      var s := ws[0] + [c] + tail;
      assert Naming.JoinWith([c], ws) == s;
      assert FirstIndex(s, c) == |ws[0]| by {
        assert s[|ws[0]|] == c;
        forall j | 0 <= j < |ws[0]|
          ensures s[j] != c
        {
          assert s[j] == ws[0][j];
        }
      }
      assert s[..|ws[0]|] == ws[0];
      assert s[|ws[0]| + 1..] == tail;
      JoinSplit(ws[1..], c);
      assert ws == [ws[0]] + ws[1..];
    }
  }

  // ---------------------------------------------------------------------------------
  // `pathlib` joins

  /** The components `pathlib` keeps of `/`-separated pieces: empty pieces and "." add
      nothing. */
  function Kept(pieces: seq<string>): (ks: seq<string>)
    ensures forall i :: 0 <= i < |ks| ==> ks[i] != "" && ks[i] != "."
    ensures |ks| <= |pieces|
  {
    if pieces == [] then []
    else (if pieces[0] == "" || pieces[0] == "." then [] else [pieces[0]]) + Kept(pieces[1..])
  }

  /** `p / s`: a string that starts with "/" replaces the path; any other adds its
      components. */
  function Div(p: Path, s: string): Path
  {
    if |s| > 0 && s[0] == '/' then Path(["/"] + Kept(Split(s, '/')))
    else Path(p.parts + Kept(Split(s, '/')))
  }

  /** A piece without `/` adds itself as one component, unless it is "" or ".". */
  lemma DivPiece(p: Path, s: string)
    requires '/' !in s
    ensures Div(p, s) == Path(p.parts + (if s == "" || s == "." then [] else [s]))
  {
    assert FirstIndex(s, '/') == |s|;
    assert Split(s, '/') == [s];
  }

  /** `reduce(operator.truediv, pieces, start)`. */
  function DivAll(start: Path, pieces: seq<string>): Path
    decreases |pieces|
  {
    if pieces == [] then start else DivAll(Div(start, pieces[0]), pieces[1..])
  }

  /** Dividing by pieces without `/` appends their kept components in order. */
  lemma {:induction false} DivAllPieces(start: Path, pieces: seq<string>)
    requires forall i :: 0 <= i < |pieces| ==> '/' !in pieces[i]
    ensures DivAll(start, pieces) == Path(start.parts + Kept(pieces))
    decreases |pieces|
  {
    if pieces != [] {
      DivPiece(start, pieces[0]);
      DivAllPieces(Div(start, pieces[0]), pieces[1..]);
    }
  }

  // ---------------------------------------------------------------------------------
  // Sorting query pairs by key

  /** Python's `<` on `str`: lexicographic by code point. */
  predicate StrLess(a: string, b: string)
  {
    if a == [] then b != []
    else if b == [] then false
    else a[0] < b[0] || (a[0] == b[0] && StrLess(a[1..], b[1..]))
  }

  lemma {:induction false} StrLessIrreflexive(a: string)
    ensures !StrLess(a, a)
  {
    if a != [] {
      StrLessIrreflexive(a[1..]);
    }
  }

  lemma {:induction false} StrLessTransitive(a: string, b: string, c: string)
    requires StrLess(a, b) && StrLess(b, c)
    ensures StrLess(a, c)
  {
    if a != [] && a[0] == b[0] && b[0] == c[0] {
      StrLessTransitive(a[1..], b[1..], c[1..]);
    }
  }

  /** Any two different strings are ordered one way or the other. */
  lemma {:induction false} StrLessTotal(a: string, b: string)
    requires a != b
    ensures StrLess(a, b) || StrLess(b, a)
  {
    if a != [] && b != [] && a[0] == b[0] {
      assert a == [a[0]] + a[1..] && b == [b[0]] + b[1..];
      StrLessTotal(a[1..], b[1..]);
    }
  }

  /** Inserting `x` into a list sorted by key: after every pair whose key is not greater
      than `x`'s, before the first whose key is. */
  function Insert(s: seq<Pair>, x: Pair): (r: seq<Pair>)
    ensures |r| == |s| + 1
  {
    if s == [] then [x]
    else if StrLess(x.0, s[0].0) then [x] + s
    else [s[0]] + Insert(s[1..], x)
  }

  /** `sorted(pairs, key=operator.itemgetter(0))`, as a stable insertion sort. */
  function SortByKey(ps: seq<Pair>): (r: seq<Pair>)
    ensures |r| == |ps|
  {
    if ps == [] then [] else Insert(SortByKey(ps[..|ps| - 1]), ps[|ps| - 1])
  }

  ghost predicate SortedByKey(s: seq<Pair>)
  {
    forall i, j :: 0 <= i < j < |s| ==> !StrLess(s[j].0, s[i].0)
  }

  /** The pairs with key `k`, in order. */
  function WithKey(s: seq<Pair>, k: string): (r: seq<Pair>)
    ensures |r| <= |s|
  {
    if s == [] then [] else (if s[0].0 == k then [s[0]] else []) + WithKey(s[1..], k)
  }

  lemma {:induction false} WithKeyAppend(a: seq<Pair>, b: seq<Pair>, k: string)
    ensures WithKey(a + b, k) == WithKey(a, k) + WithKey(b, k)
  {
    if a != [] {
      assert (a + b)[0] == a[0] && (a + b)[1..] == a[1..] + b;
      WithKeyAppend(a[1..], b, k);
      assert WithKey(a + b, k) == (if a[0].0 == k then [a[0]] else []) + WithKey(a[1..] + b, k);
    } else {
      assert a + b == b;
    }
  }

  lemma {:induction false} WithKeyElements(s: seq<Pair>, k: string, x: Pair)
    ensures x in WithKey(s, k) <==> x in s && x.0 == k
  {
    if s != [] {
      WithKeyElements(s[1..], k, x);
      assert x in s <==> x == s[0] || x in s[1..];
    }
  }

  /** Inserting keeps the list sorted. */
  lemma {:induction false} InsertSorted(s: seq<Pair>, x: Pair)
    requires SortedByKey(s)
    ensures SortedByKey(Insert(s, x))
    ensures multiset(Insert(s, x)) == multiset(s) + multiset{x}
  {
    if s == [] {
    } else if StrLess(x.0, s[0].0) {
      forall j | 0 < j < |s| + 1
        ensures !StrLess(([x] + s)[j].0, x.0)
      {
        var y := s[j - 1];
        if StrLess(y.0, x.0) {
          StrLessTransitive(y.0, x.0, s[0].0);
          if j - 1 == 0 { StrLessIrreflexive(y.0); }
        }
      }
    } else {
      InsertSorted(s[1..], x);
      var r := Insert(s[1..], x);
      forall j | 0 <= j < |r|
        ensures !StrLess(r[j].0, s[0].0)
      {
        assert r[j] in multiset(s[1..]) + multiset{x} by { assert r[j] in r; }
        if r[j] != x {
          assert r[j] in s[1..];
        }
      }
      assert s == [s[0]] + s[1..];
    }
  }

  /** Inserting `x` appends it to the pairs of its key: it lands after all of them. */
  lemma {:induction false} InsertStable(s: seq<Pair>, x: Pair, k: string)
    requires SortedByKey(s)
    ensures WithKey(Insert(s, x), k) == WithKey(s, k) + (if x.0 == k then [x] else [])
  {
    if s == [] {
    } else if StrLess(x.0, s[0].0) {
      if x.0 == k {
        forall y | y in s
          ensures y.0 != k
        {
          var j :| 0 <= j < |s| && s[j] == y;
          if j == 0 {
            StrLessIrreflexive(k);
          }
        }
        WithKeyNone(s, k);
      }
      assert WithKey([x] + s, k) == (if x.0 == k then [x] else []) + WithKey(s, k);
    } else {
      InsertStable(s[1..], x, k);
      assert WithKey([s[0]] + Insert(s[1..], x), k) == (if s[0].0 == k then [s[0]] else []) + WithKey(Insert(s[1..], x), k);
    }
  }

  lemma {:induction false} WithKeyNone(s: seq<Pair>, k: string)
    requires forall y :: y in s ==> y.0 != k
    ensures WithKey(s, k) == []
  {
    if s != [] {
      WithKeyNone(s[1..], k);
    }
  }

  /** The sorted list is sorted by key, is a permutation of the input, and is stable: the
      pairs of each key keep their order. */
  lemma {:induction false} SortByKeySpec(ps: seq<Pair>)
    ensures SortedByKey(SortByKey(ps))
    ensures multiset(SortByKey(ps)) == multiset(ps)
    ensures forall k :: WithKey(SortByKey(ps), k) == WithKey(ps, k)
  {
    if ps != [] {
      var n := |ps| - 1;
      SortByKeySpec(ps[..n]);
      InsertSorted(SortByKey(ps[..n]), ps[n]);
      assert ps == ps[..n] + [ps[n]];
      forall k
        ensures WithKey(SortByKey(ps), k) == WithKey(ps, k)
      {
        InsertStable(SortByKey(ps[..n]), ps[n], k);
        WithKeyAppend(ps[..n], [ps[n]], k);
      }
    }
  }

  /** A list sorted by key is determined by the pairs of each key: any stable sort of
      the pairs is the one `SortByKey` computes. */
  lemma {:induction false} SortedUnique(s: seq<Pair>, t: seq<Pair>)
    requires SortedByKey(s) && SortedByKey(t)
    requires forall k :: WithKey(s, k) == WithKey(t, k)
    ensures s == t
    decreases |s|
  {
    SameEmptiness(s, t);
    if s != [] {
      var k := s[0].0;
      assert WithKey(s, k) == [s[0]] + WithKey(s[1..], k);
      var m := t[0].0;
      assert WithKey(t, m) == [t[0]] + WithKey(t[1..], m);
      WithKeyElements(s, m, t[0]);
      WithKeyElements(t, k, s[0]);
      var i :| 0 <= i < |s| && s[i] == t[0];
      var j :| 0 <= j < |t| && t[j] == s[0];
      assert !StrLess(m, k) by {
        if i == 0 { StrLessIrreflexive(k); }
      }
      assert !StrLess(k, m) by {
        if j == 0 { StrLessIrreflexive(m); }
      }
      if k != m {
        StrLessTotal(k, m);
      }
      assert WithKey(t, k) == [t[0]] + WithKey(t[1..], k);
      assert s[0] == t[0] by {
        assert WithKey(s, k)[0] == s[0] && WithKey(t, k)[0] == t[0];
      }
      forall k' | true
        ensures WithKey(s[1..], k') == WithKey(t[1..], k')
      {
        var h := if k == k' then [s[0]] else [];
        assert WithKey(s, k') == h + WithKey(s[1..], k');
        assert WithKey(t, k') == h + WithKey(t[1..], k');
        assert WithKey(s[1..], k') == (h + WithKey(s[1..], k'))[|h|..];
        assert WithKey(t[1..], k') == (h + WithKey(t[1..], k'))[|h|..];
      }
      SortedUnique(s[1..], t[1..]);
      assert s == [s[0]] + s[1..] && t == [t[0]] + t[1..];
    }
  }

  lemma SameEmptiness(s: seq<Pair>, t: seq<Pair>)
    requires forall k :: WithKey(s, k) == WithKey(t, k)
    ensures s == [] <==> t == []
  {
    if s != [] {
      assert WithKey(t, s[0].0) != [];
    }
    if t != [] {
      assert WithKey(s, t[0].0) != [];
    }
  }

  /** No two pairs share a key. */
  ghost predicate DistinctKeys(ps: seq<Pair>)
  {
    forall i, j :: 0 <= i < j < |ps| ==> ps[i].0 != ps[j].0
  }

  lemma {:induction false} WithKeyCount(ps: seq<Pair>, k: string, x: Pair)
    ensures multiset(WithKey(ps, k))[x] == if x.0 == k then multiset(ps)[x] else 0
  {
    if ps != [] {
      WithKeyCount(ps[1..], k, x);
      var head := if ps[0].0 == k then [ps[0]] else [];
      assert multiset(WithKey(ps, k)) == multiset(head) + multiset(WithKey(ps[1..], k));
      assert ps == [ps[0]] + ps[1..];
      assert multiset(ps) == multiset{ps[0]} + multiset(ps[1..]);
    }
  }

  /** Permutations have, key by key, permutations of the pairs of that key. */
  lemma WithKeyMultiset(ps: seq<Pair>, qs: seq<Pair>, k: string)
    requires multiset(ps) == multiset(qs)
    ensures multiset(WithKey(ps, k)) == multiset(WithKey(qs, k))
  {
    forall x
      ensures multiset(WithKey(ps, k))[x] == multiset(WithKey(qs, k))[x]
    {
      WithKeyCount(ps, k, x);
      WithKeyCount(qs, k, x);
    }
  }

  /** A sequence of at most one element is determined by its multiset. */
  lemma AtMostOneEqual(a: seq<Pair>, b: seq<Pair>)
    requires |a| <= 1 && multiset(a) == multiset(b)
    ensures a == b
  {
    assert |b| == |multiset(b)| == |multiset(a)| == |a|;
    if |a| == 1 {
      assert b[0] in multiset(a);
    }
  }

  lemma {:induction false} WithKeyAtMostOne(ps: seq<Pair>, k: string)
    requires DistinctKeys(ps)
    ensures |WithKey(ps, k)| <= 1
  {
    if ps != [] {
      WithKeyAtMostOne(ps[1..], k);
      if ps[0].0 == k {
        forall y | y in ps[1..]
          ensures y.0 != k
        {
          var j :| 0 <= j < |ps[1..]| && ps[1..][j] == y;
          assert ps[j + 1] == y;
        }
        WithKeyNone(ps[1..], k);
      }
    }
  }

  /** Two permutations of pairs with distinct keys have the same pairs for each key. */
  lemma WithKeyPermutation(ps: seq<Pair>, qs: seq<Pair>, k: string)
    requires multiset(ps) == multiset(qs) && DistinctKeys(ps)
    ensures WithKey(ps, k) == WithKey(qs, k)
  {
    WithKeyMultiset(ps, qs, k);
    WithKeyAtMostOne(ps, k);
    AtMostOneEqual(WithKey(ps, k), WithKey(qs, k));
  }

  /** Sorting pairs with distinct keys does not depend on their order. */
  lemma DistinctKeysOrderFree(ps: seq<Pair>, qs: seq<Pair>)
    requires multiset(ps) == multiset(qs) && DistinctKeys(ps)
    ensures SortByKey(ps) == SortByKey(qs)
  {
    SortByKeySpec(ps);
    SortByKeySpec(qs);
    forall k
      ensures WithKey(SortByKey(ps), k) == WithKey(SortByKey(qs), k)
    {
      WithKeyPermutation(ps, qs, k);
    }
    SortedUnique(SortByKey(ps), SortByKey(qs));
  }

  // ---------------------------------------------------------------------------------
  // The key path

  /** `'{}={}'.format(k, v)` for each pair. */
  function Formatted(ps: seq<Pair>): (fs: seq<string>)
    ensures |fs| == |ps|
    ensures forall i :: 0 <= i < |ps| ==> fs[i] == ps[i].0 + "=" + ps[i].1
  {
    seq(|ps|, i requires 0 <= i < |ps| => ps[i].0 + "=" + ps[i].1)
  }

  /** The file name AS WRITTEN: the sorted pairs joined by `&` when the raw query is not
      empty, else `?`. A non-empty query that `parse_qsl` reads as no pairs (`x`, `a=`)
      gives the empty name. */
  function FileName(lib: UrlLib, query: string): string
  {
    if query != "" then Naming.JoinWith("&", Formatted(SortByKey(lib.parseQsl(query))))
    else "?"
  }

  /** The file name as intended: `?` whenever there are no pairs. */
  function FileNameFixed(lib: UrlLib, query: string): string
  {
    var pairs := lib.parseQsl(query);
    if pairs != [] then Naming.JoinWith("&", Formatted(SortByKey(pairs))) else "?"
  }

  /** The parsed form of a key. */
  function Parse(lib: UrlLib, item: AnyUrl): Url
  {
    if item.Parsed? then item.url else lib.urlparse(item.text)
  }

  /** `cache_dir / netloc / piece / ...` for the pieces of the URL's path. */
  function KeyDir(cacheDir: Path, u: Url): Path
  {
    DivAll(Div(cacheDir, u.netloc), Split(u.path, '/'))
  }

  /** `_key_path(item)` AS WRITTEN. */
  function KeyPath(cacheDir: Path, lib: UrlLib, item: AnyUrl): Path
  {
    var u := Parse(lib, item);
    Div(KeyDir(cacheDir, u), FileName(lib, u.query))
  }

  /** `_key_path(item)` with the intended file name. */
  function KeyPathFixed(cacheDir: Path, lib: UrlLib, item: AnyUrl): Path
  {
    var u := Parse(lib, item);
    Div(KeyDir(cacheDir, u), FileNameFixed(lib, u.query))
  }

  /** The key depends on the parsed URL's netloc, path and query only: the scheme, the
      params and the fragment do not matter, nor does the form the URL is given in. */
  lemma KeyInputs(cacheDir: Path, lib: UrlLib, a: AnyUrl, b: AnyUrl)
    requires Parse(lib, a).netloc == Parse(lib, b).netloc
    requires Parse(lib, a).path == Parse(lib, b).path
    requires Parse(lib, a).query == Parse(lib, b).query
    ensures KeyPath(cacheDir, lib, a) == KeyPath(cacheDir, lib, b)
  {
  }

  /** The directory is `cache_dir / netloc` followed by the pieces of the path, in
      order, empty pieces (and ".") adding nothing. */
  lemma KeyDirectory(cacheDir: Path, u: Url)
    ensures KeyDir(cacheDir, u) == Path(Div(cacheDir, u.netloc).parts + Kept(Split(u.path, '/')))
  {
    DivAllPieces(Div(cacheDir, u.netloc), Split(u.path, '/'));
  }

  /** With no `/` in its pairs (and at least one pair), the file name is one component
      inside the key directory; splitting it at `&` gives the `key=value` strings of the
      pairs sorted by key. */
  lemma KeyFile(cacheDir: Path, lib: UrlLib, item: AnyUrl)
    requires var u := Parse(lib, item); var ps := lib.parseQsl(u.query);
      u.query != "" && ps != [] &&
      forall i :: 0 <= i < |ps| ==> '/' !in ps[i].0 && '/' !in ps[i].1 && '&' !in ps[i].0 && '&' !in ps[i].1
    ensures var u := Parse(lib, item);
      && KeyPath(cacheDir, lib, item) == Path(KeyDir(cacheDir, u).parts + [FileName(lib, u.query)])
      && Split(FileName(lib, u.query), '&') == Formatted(SortByKey(lib.parseQsl(u.query)))
  {
    var u := Parse(lib, item);
    var ps := lib.parseQsl(u.query);
    var sorted := SortByKey(ps);
    var fs := Formatted(sorted);
    SortByKeySpec(ps);
    forall i | 0 <= i < |fs|
      ensures '/' !in fs[i] && '&' !in fs[i]
    {
      assert sorted[i] in multiset(ps);
    }
    var name := Naming.JoinWith("&", fs);
    JoinSplit(fs, '&');
    NoCharJoin(fs, '&', '/');
    assert name != "" && name != "." by {
      assert fs[0] == sorted[0].0 + "=" + sorted[0].1;
      JoinStartsWith(fs, '&');
    }
    DivPiece(KeyDir(cacheDir, u), name);
  }

  lemma {:induction false} NoCharJoin(ws: seq<string>, sep: char, c: char)
    requires sep != c
    requires forall i :: 0 <= i < |ws| ==> c !in ws[i]
    ensures c !in Naming.JoinWith([sep], ws)
  {
    if |ws| > 1 {
      NoCharJoin(ws[1..], sep, c);
    }
  }

  /** A join starts with its first piece. */
  lemma JoinStartsWith(ws: seq<string>, sep: char)
    requires |ws| >= 1
    ensures |Naming.JoinWith([sep], ws)| >= |ws[0]|
    ensures Naming.JoinWith([sep], ws)[..|ws[0]|] == ws[0]
  {
    if |ws| > 1 {
      assert Naming.JoinWith([sep], ws) == ws[0] + ([sep] + Naming.JoinWith([sep], ws[1..]));
    }
  }

  /** An empty query names the file `?`. */
  lemma EmptyQuery(cacheDir: Path, lib: UrlLib, item: AnyUrl)
    requires Parse(lib, item).query == ""
    ensures KeyPath(cacheDir, lib, item) == Path(KeyDir(cacheDir, Parse(lib, item)).parts + ["?"])
  {
    DivPiece(KeyDir(cacheDir, Parse(lib, item)), "?");
  }

  /** Permuting query pairs with distinct keys gives the same key. */
  lemma KeyOrderFree(cacheDir: Path, lib: UrlLib, a: AnyUrl, b: AnyUrl)
    requires Parse(lib, a).netloc == Parse(lib, b).netloc && Parse(lib, a).path == Parse(lib, b).path
    requires Parse(lib, a).query != "" && Parse(lib, b).query != ""
    requires multiset(lib.parseQsl(Parse(lib, a).query)) == multiset(lib.parseQsl(Parse(lib, b).query))
    requires DistinctKeys(lib.parseQsl(Parse(lib, a).query))
    ensures KeyPath(cacheDir, lib, a) == KeyPath(cacheDir, lib, b)
  {
    DistinctKeysOrderFree(lib.parseQsl(Parse(lib, a).query), lib.parseQsl(Parse(lib, b).query));
  }

  /** More generally, the key does not change when pairs are reordered as long as the
      pairs of each key keep their relative order (the sort is stable). */
  lemma KeyStable(cacheDir: Path, lib: UrlLib, a: AnyUrl, b: AnyUrl)
    requires Parse(lib, a).netloc == Parse(lib, b).netloc && Parse(lib, a).path == Parse(lib, b).path
    requires Parse(lib, a).query != "" && Parse(lib, b).query != ""
    requires forall k :: WithKey(lib.parseQsl(Parse(lib, a).query), k) == WithKey(lib.parseQsl(Parse(lib, b).query), k)
    ensures KeyPath(cacheDir, lib, a) == KeyPath(cacheDir, lib, b)
  {
    var ps, qs := lib.parseQsl(Parse(lib, a).query), lib.parseQsl(Parse(lib, b).query);
    SortByKeySpec(ps);
    SortByKeySpec(qs);
    SortedUnique(SortByKey(ps), SortByKey(qs));
  }

  /** AS WRITTEN, a query that holds no pair (`?x`) gives the empty file name, so the
      entry's path is its directory: the directory that holds the entries of the URLs
      one path piece deeper. */
  lemma PairlessQueryAsWritten(cacheDir: Path, lib: UrlLib, item: AnyUrl)
    requires Parse(lib, item).query != "" && lib.parseQsl(Parse(lib, item).query) == []
    ensures KeyPath(cacheDir, lib, item) == KeyDir(cacheDir, Parse(lib, item))
  {
    var u := Parse(lib, item);
    DivPiece(KeyDir(cacheDir, u), "");
  }

  /** With the intended name, a URL whose query holds no pair is cached in the file `?`
      of its directory, as a URL without a query is. */
  lemma PairlessQueryFixed(cacheDir: Path, lib: UrlLib, item: AnyUrl)
    requires lib.parseQsl(Parse(lib, item).query) == []
    ensures KeyPathFixed(cacheDir, lib, item) == Path(KeyDir(cacheDir, Parse(lib, item)).parts + ["?"])
  {
    DivPiece(KeyDir(cacheDir, Parse(lib, item)), "?");
  }
}
