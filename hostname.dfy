/**
 * The string post-processing of `WebCrawler.resolve_hostname`
 * (web_crawler.py:35-50). `urlsplit` itself is not modelled: its three
 * relevant components (scheme, netloc, path) are given as a `Parts` value.
 */
module Hostname {

  /** What `urllib.parse.urlsplit` yields that `resolve_hostname` uses. */
  datatype Parts = Parts(scheme: string, netloc: string, path: string)

  /** The triple returned by `resolve_hostname`. */
  datatype Resolved = Resolved(host: string, baseUrl: string, path: string)

  /** The pattern that `str.replace` removes from the netloc. */
  const Www: string := "www."

  /** `s` has an occurrence of "www." starting at position `i`. */
  predicate WwwAt(s: string, i: nat)
  {
    i + 4 <= |s| && s[i..i + 4] == Www
  }

  /** "www." occurs somewhere in `s`. */
  predicate ContainsWww(s: string)
  {
    exists i: nat | i < |s| :: WwwAt(s, i)
  }

  /** `r` can be obtained from `s` by deleting characters. */
  predicate IsSubsequence(r: string, s: string)
    decreases |s|
  {
    if r == [] then true
    else if s == [] then false
    else if r[0] == s[0] then IsSubsequence(r[1..], s[1..])
    else IsSubsequence(r, s[1..])
  }

  /**
   * `netloc.replace("www.", "")`: Python scans left to right and deletes
   * every non-overlapping occurrence, not only a leading one.
   */
  function StripWww(s: string): (r: string)
    ensures |r| <= |s|
    decreases |s|
  {
    if |s| < 4 then s
    else if s[..4] == Www then StripWww(s[4..])
    else [s[0]] + StripWww(s[1..])
  }

  /** Stripping removes whole occurrences of the four-character pattern. */
  lemma {:induction false} StripWwwRemovesWhole(s: string)
    ensures (|s| - |StripWww(s)|) % 4 == 0
    decreases |s|
  {
    if |s| >= 4 {
      if s[..4] == Www {
        StripWwwRemovesWhole(s[4..]);
      } else {
        StripWwwRemovesWhole(s[1..]);
      }
    }
  }

  /** A netloc without "www." is its own host name. */
  lemma {:induction false} StripWwwNoOccurrence(s: string)
    requires !ContainsWww(s)
    ensures StripWww(s) == s
    decreases |s|
  {
    if |s| >= 4 {
      assert !WwwAt(s, 0);
      assert s[..4] != Www;
      forall i: nat | i < |s[1..]| ensures !WwwAt(s[1..], i) {
        assert !WwwAt(s, i + 1);
        if i + 4 <= |s[1..]| {
          assert s[1..][i..i + 4] == s[i + 1..i + 5];
        }
      }
      StripWwwNoOccurrence(s[1..]);
    }
  }

  /** A leading "www." is removed. */
  lemma StripWwwLeading(s: string)
    ensures StripWww(Www + s) == StripWww(s)
  {
    assert (Www + s)[..4] == Www;
    assert (Www + s)[4..] == s;
  }

  /**
   * Every occurrence is removed, not only a leading one: an occurrence that
   * follows a prefix `a` without one is dropped, and `a` is kept.
   */
  lemma {:induction false} StripWwwAfter(a: string, b: string)
    requires forall i :: 0 <= i < |a| ==> !WwwAt(a + Www + b, i)
    ensures StripWww(a + Www + b) == a + StripWww(b)
    decreases |a|
  {
    if a == [] {
      assert a + Www + b == Www + b;
      StripWwwLeading(b);
    } else {
      var t := a[1..] + Www + b;
      assert a + Www + b == a + (Www + b);
      assert a[1..] + Www + b == a[1..] + (Www + b);
      ConsSplit(a, Www + b);
      assert !WwwAt(a + Www + b, 0);
      forall i | 0 <= i < |a[1..]| ensures !WwwAt(t, i) {
        WwwAtShift(a[0], t, i);
        assert !WwwAt(a + Www + b, i + 1);
      }
      StripWwwAfter(a[1..], b);
      StripWwwSkip(a[0], t);
      ConsSplit(a, StripWww(b));
    }
  }

  /** `a + r` is its first character followed by the rest. */
  lemma ConsSplit(a: string, r: string)
    requires a != []
    ensures a + r == [a[0]] + (a[1..] + r) && a == [a[0]] + a[1..]
  {
  }

  /** An occurrence in `t` is one in `[c] + t`, one position on. */
  lemma WwwAtShift(c: char, t: string, i: nat)
    ensures WwwAt([c] + t, i + 1) <==> WwwAt(t, i)
  {
    if i + 4 <= |t| {
      assert ([c] + t)[i + 1..i + 5] == t[i..i + 4];
    }
  }

  /** Without an occurrence at the front, the first character is kept. */
  lemma StripWwwSkip(c: char, t: string)
    requires |t| >= 3 && !WwwAt([c] + t, 0)
    ensures StripWww([c] + t) == [c] + StripWww(t)
  {
    assert ([c] + t)[1..] == t;
  }

  /** Stripping only deletes characters. */
  lemma {:induction false} StripWwwSubsequence(s: string)
    ensures IsSubsequence(StripWww(s), s)
    decreases |s|
  {
    if |s| < 4 {
      SubsequenceRefl(s);
    } else if s[..4] == Www {
      StripWwwSubsequence(s[4..]);
      SubsequenceDropPrefix(StripWww(s[4..]), s, 4);
    } else {
      StripWwwSubsequence(s[1..]);
      assert ([s[0]] + StripWww(s[1..]))[1..] == StripWww(s[1..]);
    }
  }

  lemma {:induction false} SubsequenceRefl(s: string)
    ensures IsSubsequence(s, s)
    decreases |s|
  {
    if s != [] { SubsequenceRefl(s[1..]); }
  }

  lemma {:induction false} SubsequenceDropPrefix(r: string, s: string, k: nat)
    requires k <= |s|
    requires IsSubsequence(r, s[k..])
    ensures IsSubsequence(r, s)
    decreases k
  {
    if k > 0 {
      assert s[k - 1..][1..] == s[k..];
      SubsequenceSkip(r, s[k - 1..]);
      SubsequenceDropPrefix(r, s, k - 1);
    }
  }

  lemma {:induction false} SubsequenceSkip(r: string, s: string)
    requires s != []
    requires IsSubsequence(r, s[1..])
    ensures IsSubsequence(r, s)
    decreases |s|, 0
  {
    if r != [] && r[0] == s[0] {
      // `r` is matched inside `s[1..]`; its tail is then matched one further on.
      SubsequenceTail(r, s[1..]);
    }
  }

  lemma {:induction false} SubsequenceTail(r: string, s: string)
    requires r != []
    requires IsSubsequence(r, s)
    ensures IsSubsequence(r[1..], s)
    decreases |s|, 1
  {
    if s != [] {
      if r[0] == s[0] {
        SubsequenceSkip(r[1..], s);
      } else {
        SubsequenceTail(r, s[1..]);
        SubsequenceSkip(r[1..], s);
      }
    }
  }

  /**
   * Position of the last `c` in `s`, or -1 when there is none
   * (Python's `str.rfind`).
   */
  function RFind(s: string, c: char): (r: int)
    ensures -1 <= r < |s|
    ensures r == -1 <==> c !in s
    ensures r >= 0 ==> s[r] == c && forall j :: r < j < |s| ==> s[j] != c
    decreases |s|
  {
    if s == [] then -1
    else if s[|s| - 1] == c then |s| - 1
    else RFind(s[..|s| - 1], c)
  }

  /**
   * The directory part of `url`: `url[:url.rfind('/') + 1]` when the parsed
   * path contains '/', otherwise `url` itself.
   */
  function PathPrefix(url: string, path: string): (r: string)
    ensures r <= url
    ensures '/' !in path ==> r == url
    ensures '/' in path && '/' in url ==> r != [] && r[|r| - 1] == '/' && '/' !in url[|r|..]
    ensures '/' in path && '/' !in url ==> r == []
  {
    if '/' in path then url[..RFind(url, '/') + 1] else url
  }

  /** `resolve_hostname(url)` for a URL that `urlsplit` splits into `parts`. */
  function Resolve(url: string, parts: Parts): (r: Resolved)
    ensures r.host == StripWww(parts.netloc)
    ensures r.baseUrl == parts.scheme + "://" + parts.netloc
    ensures r.path == PathPrefix(url, parts.path) && r.path <= url
  {
    Resolved(StripWww(parts.netloc), parts.scheme + "://" + parts.netloc, PathPrefix(url, parts.path))
  }

  /** The host name under which a URL is queued and owned (`resolve_hostname(url)[0]`). */
  function HostOf(split: string -> Parts, url: string): string
  {
    StripWww(split(url).netloc)
  }

  /** `HostOf` is the first component of `resolve_hostname`. */
  lemma HostOfResolves(split: string -> Parts, url: string)
    ensures HostOf(split, url) == Resolve(url, split(url)).host
  {
  }

  /** A one-letter ".com" name has no "www." to remove. */
  lemma StripWwwDotCom(c: char)
    ensures StripWww([c] + ".com") == [c] + ".com"
  {
    var s := [c] + ".com";
    assert s[..4][1] != Www[1];
    assert s[1..] == ".com";
    assert ".com"[..4][0] != Www[0];
    assert ".com"[1..] == "com";
    assert StripWww("com") == "com";
  }

  /** Example: a leading "www." is removed. */
  lemma StripWwwLeadingExample()
    ensures StripWww("www.a.com") == "a.com"
  {
    StripWwwLeading("a.com");
    assert Www + "a.com" == "www.a.com";
    StripWwwDotCom('a');
  }

  /** Example: an occurrence after the first character is removed too. */
  lemma StripWwwInnerExample()
    ensures StripWww("awww.b.com") == "ab.com"
  {
    var s := "awww.b.com";
    assert s[..4][0] != Www[0];
    assert s[1..] == Www + "b.com";
    StripWwwLeading("b.com");
    StripWwwDotCom('b');
  }

  /**
   * One pass of `replace` can create a new occurrence, so a host name may
   * still contain "www." (here "wwww.ww." becomes "www.").
   */
  lemma StripWwwIsSinglePass()
    ensures StripWww("wwww.ww.") == "www."
    ensures ContainsWww(StripWww("wwww.ww."))
  {
    var s := "wwww.ww.";
    assert s[..4][3] != Www[3];
    assert s[1..] == "www.ww.";
    assert "www.ww."[..4] == Www && "www.ww."[4..] == "ww.";
    assert StripWww("ww.") == "ww.";
    assert WwwAt("www.", 0);
  }
}
