/**
 * Splitting a DNS name into the (host, domain) pair of a host override and
 * joining such a pair back (`explodeHostName`, `buildDNSName`).
 */
module Names {
  import opened Wrappers
  import opened Types

  /** Number of occurrences of `c` in `s` (`strings.Count` with a one-character separator). */
  function Count(s: string, c: char): (n: nat)
    ensures n <= |s|
    ensures n == 0 <==> c !in s
  {
    if s == [] then 0 else (if s[0] == c then 1 else 0) + Count(s[1..], c)
  }

  lemma {:induction false} CountAppend(a: string, b: string, c: char)
    ensures Count(a + b, c) == Count(a, c) + Count(b, c)
  {
    if a == [] {
      assert a + b == b;
    } else {
      assert (a + b)[1..] == a[1..] + b;
      CountAppend(a[1..], b, c);
    }
  }

  /** Position of the first `c` in `s`. */
  function IndexOf(s: string, c: char): (i: nat)
    requires c in s
    ensures i < |s| && s[i] == c && c !in s[..i]
  {
    if s[0] == c then 0 else 1 + IndexOf(s[1..], c)
  }

  /** `strings.Join(parts, sep)` for a one-character separator. */
  function Join(parts: seq<string>, sep: char): string
    requires parts != []
  {
    if |parts| == 1 then parts[0] else parts[0] + [sep] + Join(parts[1..], sep)
  }

  /** `strings.Split(s, sep)` for a one-character separator. */
  function Split(s: string, sep: char): (parts: seq<string>)
    ensures |parts| == Count(s, sep) + 1
    ensures forall i | 0 <= i < |parts| :: sep !in parts[i]
    ensures Join(parts, sep) == s
  {
    if s == [] then [""]
    else
      var rest := Split(s[1..], sep);
      assert s == [s[0]] + s[1..];
      if s[0] == sep then
        JoinEmptyFirst(rest, sep);
        [""] + rest
      else
        JoinExtendFirst(s[0], rest, sep);
        [[s[0]] + rest[0]] + rest[1..]
  }

  lemma JoinEmptyFirst(rest: seq<string>, sep: char)
    requires rest != []
    ensures Join([""] + rest, sep) == [sep] + Join(rest, sep)
  {
    assert ([""] + rest)[1..] == rest;
  }

  lemma JoinExtendFirst(c: char, rest: seq<string>, sep: char)
    requires rest != []
    ensures Join([[c] + rest[0]] + rest[1..], sep) == [c] + Join(rest, sep)
  {
    var parts := [[c] + rest[0]] + rest[1..];
    if |rest| > 1 {
      assert parts[1..] == rest[1..];
    }
  }

  /**
   * explodeHostName: a name with exactly one dot is all domain; otherwise the
   * name is cut at its first dot, and a name without a dot is refused.
   */
  function ExplodeHostName(name: string): (r: Result<(string, string), Error>)
    ensures r.Failure? <==> Count(name, '.') == 0
    ensures r.Failure? ==> r.error == NameWithoutDot([name])
    ensures Count(name, '.') == 1 ==> r == Success(("", name))
    ensures Count(name, '.') >= 2 ==>
      r.Success? && '.' !in r.value.0 && name == r.value.0 + "." + r.value.1
  {
    if Count(name, '.') == 1 then Success(("", name))
    else if '.' !in name then Failure(NameWithoutDot([name]))
    else
      var i := IndexOf(name, '.');
      assert name == name[..i] + "." + name[i + 1..];
      Success((name[..i], name[i + 1..]))
  }

  /** buildDNSName: a host without a dot is joined to its domain, an empty host is the domain itself. */
  function BuildDnsName(host: string, domain: string): (r: Result<string, Error>)
    ensures r.Failure? <==> '.' in host
    ensures r.Success? && host == "" ==> r.value == domain
    ensures r.Success? && host != "" ==> r.value == host + "." + domain
  {
    if Count(host, '.') != 0 then Failure(HostWithDot(Split(host, '.')))
    else if host != "" then Success(host + "." + domain)
    else Success(domain)
  }

  /** Joining what `ExplodeHostName` split gives the name back exactly for these names. */
  lemma JoinExplode(name: string)
    ensures (ExplodeHostName(name).Success?
             && BuildDnsName(ExplodeHostName(name).value.0, ExplodeHostName(name).value.1) == Success(name))
        <==> RoundTrips(name)
  {
    var n := Count(name, '.');
    if n >= 2 {
      var (h, d) := ExplodeHostName(name).value;
      if h == "" {
        assert |d| < |name|;
      } else {
        assert name[0] == h[0];
      }
    }
  }

  /** The names that survive being split and joined again. */
  predicate RoundTrips(name: string) {
    Count(name, '.') == 1 || (Count(name, '.') >= 2 && name[0] != '.')
  }

  /** Splitting what `BuildDnsName` joined gives the pair back exactly for these pairs. */
  lemma ExplodeJoin(host: string, domain: string)
    ensures (BuildDnsName(host, domain).Success?
             && ExplodeHostName(BuildDnsName(host, domain).value) == Success((host, domain)))
        <==> ('.' !in host && ((host == "" && Count(domain, '.') == 1) || (host != "" && Count(domain, '.') >= 1)))
  {
    if '.' !in host {
      if host == "" {
        var n := Count(domain, '.');
        if n >= 2 {
          var (h, d) := ExplodeHostName(domain).value;
          assert h == "" ==> |d| < |domain|;
        }
      } else {
        var name := host + "." + domain;
        assert name == host + ("." + domain);
        CountAppend(host, "." + domain, '.');
        CountAppend(".", domain, '.');
        if Count(domain, '.') >= 1 {
          var (h, d) := ExplodeHostName(name).value;
          PrefixWithoutDot(h, d, host, domain);
        }
      }
    }
  }

  /** Two ways of writing a name as `prefix + "." + rest` with a dot-free prefix are the same. */
  lemma {:induction false} PrefixWithoutDot(h1: string, d1: string, h2: string, d2: string)
    requires '.' !in h1 && '.' !in h2
    requires h1 + "." + d1 == h2 + "." + d2
    ensures h1 == h2 && d1 == d2
  {
    var s := h1 + "." + d1;
    assert h1 == [] <==> s[0] == '.' by {
      if h1 != [] {
        assert s[0] == h1[0];
      }
    }
    assert h2 == [] <==> s[0] == '.' by {
      if h2 != [] {
        assert s[0] == (h2 + "." + d2)[0] == h2[0];
      }
    }
    if h1 == [] {
      assert d1 == s[1..];
      assert d2 == (h2 + "." + d2)[1..];
    } else {
      assert h1[1..] + "." + d1 == s[1..];
      assert h2[1..] + "." + d2 == (h2 + "." + d2)[1..];
      PrefixWithoutDot(h1[1..], d1, h2[1..], d2);
      assert h1 == [h1[0]] + h1[1..];
      assert h2 == [h2[0]] + h2[1..];
    }
  }
}
