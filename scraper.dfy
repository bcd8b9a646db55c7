/** scraper.py's naming of cached pages: the file a fetched url is stored under. */
module Scraper {
  import opened Strings

  /** DIR: the directory cached pages live in. */
  const CacheDir: string := "cache/"

  const HtmlSuffix: string := ".html"

  /** s.replace(target, replacement) for single characters: every occurrence replaced, every
      other character kept in place. */
  function Replace(s: string, target: char, replacement: char): (r: string)
    ensures |r| == |s|
    ensures forall i :: 0 <= i < |s| ==> r[i] == if s[i] == target then replacement else s[i]
  {
    if s == [] then []
    else Replace(s[..|s| - 1], target, replacement) + [if s[|s| - 1] == target then replacement else s[|s| - 1]]
  }

  /** filename_from_url(url): slashes become underscores, and ".html" is appended. */
  function FilenameFromUrl(url: string): (name: string)
    ensures EndsWith(name, HtmlSuffix)
    ensures |name| == |url| + |HtmlSuffix|
    ensures '/' !in name
    ensures forall i :: 0 <= i < |url| ==> name[i] == if url[i] == '/' then '_' else url[i]
  {
    var name := Replace(url, '/', '_') + HtmlSuffix;
    assert name[|name| - |HtmlSuffix|..] == HtmlSuffix;
    name
  }

  /** The character a url character stands as in a file name. */
  function Slashless(c: char): char
  {
    if c == '/' then '_' else c
  }

  /** Two urls get the same file name exactly when they have the same length and agree at
      every position once slashes are read as underscores; so "a/b" and "a_b" collide. */
  lemma FilenameCollision(a: string, b: string)
    ensures FilenameFromUrl(a) == FilenameFromUrl(b) <==>
      |a| == |b| && forall i :: 0 <= i < |a| ==> Slashless(a[i]) == Slashless(b[i])
  {
    if FilenameFromUrl(a) == FilenameFromUrl(b) {
      assert |a| == |b|;
      forall i | 0 <= i < |a| ensures Slashless(a[i]) == Slashless(b[i]) {
        assert FilenameFromUrl(a)[i] == FilenameFromUrl(b)[i];
      }
    }
    if |a| == |b| && forall i :: 0 <= i < |a| ==> Slashless(a[i]) == Slashless(b[i]) {
      assert Replace(a, '/', '_') == Replace(b, '/', '_');
    }
  }

  /** get_soup's file path: the cache directory followed by the file name. */
  function CachePath(url: string): (path: string)
    ensures |path| == |CacheDir| + |FilenameFromUrl(url)|
    ensures path[..|CacheDir|] == CacheDir
  {
    CacheDir + FilenameFromUrl(url)
  }

  /** The path names a file directly inside the cache directory: its only slash is the
      directory's own, and the rest is the url's file name. */
  lemma CachePathInCacheDir(url: string)
    ensures forall i :: 0 <= i < |CachePath(url)| && CachePath(url)[i] == '/' ==> i == |CacheDir| - 1
    ensures CachePath(url)[|CacheDir|..] == FilenameFromUrl(url)
  {
    var path := CachePath(url);
    var name := FilenameFromUrl(url);
    forall i | |CacheDir| <= i < |path| ensures path[i] != '/' {
      assert path[i] == name[i - |CacheDir|];
    }
  }
}
