/** The publisher allowlist test `isNewsLink`, parameterised by its domain table
    (the two endpoints that use it carry slightly different tables). */
module Allowlist {
  import opened Js

  /** `host === dom || host.endsWith("." + dom)`. */
  predicate MatchesDomain(host: string, dom: string) {
    host == dom || EndsWith(host, "." + dom)
  }

  /** `domains.some(dom => MatchesDomain(host, dom))`, scanning in table order. */
  predicate SomeDomainMatches(domains: seq<string>, host: string)
    decreases |domains|
  {
    |domains| > 0 && (MatchesDomain(host, domains[0]) || SomeDomainMatches(domains[1..], host))
  }

  lemma {:induction false} SomeDomainMatchesIff(domains: seq<string>, host: string)
    ensures SomeDomainMatches(domains, host)
        <==> exists i :: 0 <= i < |domains| && MatchesDomain(host, domains[i])
    decreases |domains|
  {
    if |domains| > 0 {
      SomeDomainMatchesIff(domains[1..], host);
      if SomeDomainMatches(domains[1..], host) {
        var i :| 0 <= i < |domains[1..]| && MatchesDomain(host, domains[1..][i]);
        assert MatchesDomain(host, domains[i + 1]);
      }
      if exists i :: 0 <= i < |domains| && MatchesDomain(host, domains[i]) {
        var i :| 0 <= i < |domains| && MatchesDomain(host, domains[i]);
        if i > 0 {
          assert MatchesDomain(host, domains[1..][i - 1]);
        }
      }
    }
  }

  /** `isNewsLink(url)`: parse the URL, drop one leading "www." from its host name and
      test it against the table; a URL that does not parse is rejected, never thrown. */
  function IsNewsLink(domains: seq<string>, hostname: string -> Option<string>, url: string): (r: bool)
    ensures r <==> hostname(url).Some?
                   && exists i :: 0 <= i < |domains| && MatchesDomain(StripWww(hostname(url).value), domains[i])
  {
    match hostname(url)
    case None => false
    case Some(h) =>
      SomeDomainMatchesIff(domains, StripWww(h));
      SomeDomainMatches(domains, StripWww(h))
  }

  /** A host under a sub-domain of `dom` is under `dom`: an entry that ends with
      "." + `dom` is implied by an entry `dom`. */
  lemma SubdomainCovered(host: string, sub: string, dom: string)
    requires EndsWith(sub, "." + dom)
    requires MatchesDomain(host, sub)
    ensures MatchesDomain(host, dom)
  {
    if host != sub {
      assert EndsWith("." + sub, "." + dom) by {
        assert ("." + sub)[|"." + sub| - |"." + dom|..] == sub[|sub| - |"." + dom|..];
      }
      EndsWithTrans(host, "." + sub, "." + dom);
    }
  }

  lemma {:induction false} SomeDomainMatchesConcat(a: seq<string>, b: seq<string>, host: string)
    ensures SomeDomainMatches(a + b, host) <==> SomeDomainMatches(a, host) || SomeDomainMatches(b, host)
    decreases |a|
  {
    if a == [] {
      assert a + b == b;
    } else {
      assert (a + b)[1..] == a[1..] + b;
      SomeDomainMatchesConcat(a[1..], b, host);
    }
  }

  lemma {:induction false} SomeDomainMatchesAt(domains: seq<string>, host: string, i: nat)
    requires i < |domains| && MatchesDomain(host, domains[i])
    ensures SomeDomainMatches(domains, host)
  {
    if i > 0 {
      SomeDomainMatchesAt(domains[1..], host, i - 1);
    }
  }
}
