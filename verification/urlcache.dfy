/** The `URLCache` class of collection/scrape.py: a directory of cached responses, one
    file per key path, each fresh for `ttl` seconds after it was last written. The file
    system is a map from path to content and modification time; the clock is an integer
    number of seconds passed to each operation; the wrapped fetch is a collaborator that
    records the URLs it was asked for. */
module UrlCache {
  import opened Wrappers
  import opened UrlKey

  type Bytes = seq<bv8>

  /** A cached file: its content and its modification time. */
  datatype Entry = Entry(content: Bytes, mtime: int)

  /** The default time to live, five days in seconds. */
  const DefaultTtl: int := 5 * 24 * 60 * 60

  /** `_contains_path(path)` at time `now`: the file exists and, unless `ttl` is `None`,
      was modified strictly after `now - ttl`. */
  predicate Present(files: map<Path, Entry>, ttl: Option<int>, path: Path, now: int)
  {
    path in files && (ttl.None? || files[path].mtime > now - ttl.value)
  }

  /** An entry stays present for exactly `ttl` seconds after it was written (with no
      `ttl`, for ever): it is present at `now` if and only if `now < mtime + ttl`. */
  lemma PresentWindow(files: map<Path, Entry>, ttl: Option<int>, path: Path, now: int)
    requires path in files
    ensures ttl.None? ==> Present(files, ttl, path, now)
    ensures ttl.Some? ==> (Present(files, ttl, path, now) <==> now < files[path].mtime + ttl.value)
    ensures forall later :: later >= now && Present(files, ttl, path, later) ==> Present(files, ttl, path, now)
  {
  }

  /** A file written at `written` is read back, with its content, at any `now` within
      `ttl` of the write; writing one path leaves every other path as it was. */
  lemma StoreThenRead(files: map<Path, Entry>, ttl: Option<int>, path: Path, value: Bytes, written: int, now: int)
    requires ttl.None? || now < written + ttl.value
    ensures Present(files[path := Entry(value, written)], ttl, path, now)
    ensures files[path := Entry(value, written)][path].content == value
    ensures forall q :: q != path ==> (Present(files[path := Entry(value, written)], ttl, q, now) <==> Present(files, ttl, q, now))
  {
  }

  /** With a `ttl` of zero or less, an entry is stale the moment it is written. */
  lemma NonPositiveTtlNeverFresh(files: map<Path, Entry>, ttl: int, path: Path, value: Bytes, now: int)
    requires ttl <= 0
    ensures !Present(files[path := Entry(value, now)], Some(ttl), path, now)
  {
  }

  /** The wrapped fetch (`requests.get(url).content` for `fetch_content`): the answer
      the server gives for each URL, an error propagating unchanged, and the URLs asked
      for so far. */
  class Fetcher {
    const respond: string -> Result<Bytes>
    var requests: seq<string>

    constructor (respond: string -> Result<Bytes>)
      ensures this.respond == respond && requests == []
    {
      this.respond := respond;
      requests := [];
    }

    method Fetch(url: string) returns (r: Result<Bytes>)
      modifies this
      ensures r == respond(url)
      ensures requests == old(requests) + [url]
    {
      r := respond(url);
      requests := requests + [url];
    }
  }

  class URLCache {
    const cacheDir: Path
    const ttl: Option<int>
    const lib: UrlLib
    /** The files under `cacheDir`. */
    var files: map<Path, Entry>

    /** `URLCache(cache_dir, ttl=...)` over the files already on disk. */
    constructor (cacheDir: Path, ttl: Option<int>, lib: UrlLib, files: map<Path, Entry>)
      ensures this.cacheDir == cacheDir && this.ttl == ttl && this.lib == lib && this.files == files
    {
      this.cacheDir := cacheDir;
      this.ttl := ttl;
      this.lib := lib;
      this.files := files;
    }

    /** `_key_path(key)`. */
    function KeyOf(item: AnyUrl): Path
    {
      KeyPath(cacheDir, lib, item)
    }

    /** `_contains_path(path)` at time `now`. */
    predicate ContainsPath(path: Path, now: int)
      reads this
    {
      Present(files, ttl, path, now)
    }

    /** `key in cache` at time `now`. */
    predicate Contains(item: AnyUrl, now: int)
      reads this
    {
      ContainsPath(KeyOf(item), now)
    }

    /** `cache[key]`: the content of a present entry, else `KeyError`. */
    method GetItem(item: AnyUrl, now: int) returns (r: Result<Bytes>)
      ensures r.Ok? <==> Contains(item, now)
      ensures r.Ok? ==> r.value == files[KeyOf(item)].content
      ensures r.Err? ==> r.error == KeyError
    {
      var path := KeyOf(item);
      if ContainsPath(path, now) {
        return Ok(files[path].content);
      }
      return Err(KeyError);
    }

    /** `cache.get(key, default)`: the content of a present entry, else `default`. */
    method Get(item: AnyUrl, now: int, default: Option<Bytes>) returns (r: Option<Bytes>)
      ensures Contains(item, now) ==> r == Some(files[KeyOf(item)].content)
      ensures !Contains(item, now) ==> r == default
    {
      var path := KeyOf(item);
      if ContainsPath(path, now) {
        return Some(files[path].content);
      }
      return default;
    }

    /** `cache[key] = value` at time `now`: the key's file holds `value` and was modified
      at `now`; no other file changes. */
    method SetItem(item: AnyUrl, value: Bytes, now: int)
      modifies this
      ensures files == old(files)[KeyOf(item) := Entry(value, now)]
    {
      var path := KeyOf(item);
      files := files[path := Entry(value, now)];
    }

    /** `del cache[key]`: removes a present entry and only that one; an absent or stale
        entry raises `KeyError` and nothing changes (a stale file stays on disk). */
    method DelItem(item: AnyUrl, now: int) returns (o: Outcome)
      modifies this
      ensures o.Pass? <==> old(Contains(item, now))
      ensures o.Pass? ==> files == old(files) - {KeyOf(item)}
      ensures o.Fail? ==> o.error == KeyError && files == old(files)
    {
      var path := KeyOf(item);
      if ContainsPath(path, now) {
        files := files - {path};
        return Pass;
      }
      return Fail(KeyError);
    }

    /** `cache(fetch)(url)` at time `now`, the read-through wrapper: a hit returns the
        cached content without fetching; a miss fetches `url` once, stores a successful
        answer under the URL's key and returns it, and lets an error through with the
        cache unchanged. */
    method Call(fetcher: Fetcher, url: string, now: int) returns (r: Result<Bytes>)
      modifies this, fetcher
      ensures var key := KeyOf(Parsed(lib.urlparse(url)));
        old(Present(files, ttl, key, now)) ==>
          && r == Ok(old(files)[key].content)
          && files == old(files)
          && fetcher.requests == old(fetcher.requests)
      ensures var key := KeyOf(Parsed(lib.urlparse(url)));
        !old(Present(files, ttl, key, now)) ==>
          && fetcher.requests == old(fetcher.requests) + [url]
          && r == fetcher.respond(url)
          && (r.Ok? ==> files == old(files)[key := Entry(r.value, now)])
          && (r.Err? ==> files == old(files))
    {
      var parsed := Parsed(lib.urlparse(url));
      var result := Get(parsed, now, None);
      if result.None? {
        r := fetcher.Fetch(url);
        if r.Ok? {
          SetItem(parsed, r.value, now);
        }
      } else {
        r := Ok(result.value);
      }
    }
  }
}
