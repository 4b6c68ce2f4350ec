/**
  The URL building of the reporting loop: the full source URL with the
  regex end anchor dropped, and the target URL resolved against the host.
 */
module Urls {

  /** `strings.HasPrefix(s, p)`. */
  predicate HasPrefix(s: string, p: string)
  {
    |p| <= |s| && s[..|p|] == p
  }

  /** `strings.HasSuffix(s, p)`. */
  predicate HasSuffix(s: string, p: string)
  {
    |p| <= |s| && s[|s| - |p|..] == p
  }

  const Scheme := "http://"

  /** The source URL: `"http://" + host + path`, with one trailing `$`
      removed when there is one (main.go lines 137 and 141-143). */
  function BuildSource(host: string, path: string): (r: string)
    ensures |r| == |Scheme + host + path| - (if HasSuffix(Scheme + host + path, "$") then 1 else 0)
    ensures r == (Scheme + host + path)[..|r|]
    ensures HasPrefix(r, Scheme)
  {
    var url := Scheme + host + path;
    if HasSuffix(url, "$") then
      assert |url| > |Scheme| by { assert url[..|Scheme|] == Scheme; assert Scheme[|Scheme| - 1] != '$'; }
      assert url[..|url| - 1][..|Scheme|] == Scheme;
      url[..|url| - 1]
    else url
  }

  /** True of a target that is used as it is (main.go line 146). */
  predicate IsAbsolute(target: string)
  {
    HasPrefix(target, "http") || HasPrefix(target, "www")
  }

  /** The target URL: the target itself when it starts with `http` or `www`,
      otherwise `"http://" + host + "/" + target` (main.go lines 146-151). */
  function BuildTarget(host: string, target: string): (r: string)
    ensures IsAbsolute(r)
    ensures IsAbsolute(target) ==> r == target
    ensures !IsAbsolute(target) ==> r == Scheme + host + "/" + target
  {
    if IsAbsolute(target) then target else Scheme + host + "/" + target
  }

  /** A source path ending in the `$` anchor loses exactly that `$`; any
      other non-empty path is kept whole. */
  lemma BuildSourceDropsAnchor(host: string, path: string)
    ensures HasSuffix(path, "$") ==> BuildSource(host, path) == Scheme + host + path[..|path| - 1]
    ensures |path| > 0 && !HasSuffix(path, "$") ==> BuildSource(host, path) == Scheme + host + path
  {
    var url := Scheme + host + path;
    if |path| > 0 {
      assert url[|url| - 1] == path[|path| - 1];
      if HasSuffix(path, "$") {
        assert HasSuffix(url, "$");
        assert url[..|url| - 1] == Scheme + host + path[..|path| - 1];
      } else {
        assert path[|path| - 1..] != "$";
        assert url[|url| - 1..] == path[|path| - 1..];
      }
    }
  }

  /** Only one `$` is removed: `http://example.com/old$` becomes
      `http://example.com/old`, and a path ending in `$$` keeps one. */
  lemma BuildSourceExamples()
    ensures BuildSource("example.com", "/old$") == "http://example.com/old"
    ensures BuildSource("example.com", "/old$$") == "http://example.com/old$"
  {
    BuildSourceDropsAnchor("example.com", "/old$");
    BuildSourceDropsAnchor("example.com", "/old$$");
  }

  /** Building a target from a built target changes nothing. */
  lemma BuildTargetIdempotent(host: string, target: string)
    ensures BuildTarget(host, BuildTarget(host, target)) == BuildTarget(host, target)
  {
  }

  /** A relative target is appended after a `/` of its own, so the usual
      target `/new` becomes `http://example.com//new`. */
  lemma BuildTargetDoubleSlash()
    ensures BuildTarget("example.com", "/new") == "http://example.com//new"
  {
    assert !IsAbsolute("/new") by { assert "/new"[0] == '/'; }
  }

  /** A target without a leading `/` gets exactly one: `new` becomes
      `http://example.com/new`. */
  lemma BuildTargetSingleSlash()
    ensures BuildTarget("example.com", "new") == "http://example.com/new"
  {
    assert !IsAbsolute("new") by { assert "new"[0] == 'n'; }
  }

  /** Targets starting with `http` or `www` are kept as they are. */
  lemma BuildTargetAbsoluteExamples()
    ensures BuildTarget("example.com", "https://other.org/x") == "https://other.org/x"
    ensures BuildTarget("example.com", "www.other.org") == "www.other.org"
  {
    assert IsAbsolute("https://other.org/x") by { assert "https://other.org/x"[..4] == "http"; }
    assert IsAbsolute("www.other.org") by { assert "www.other.org"[..3] == "www"; }
  }
}
