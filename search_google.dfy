/** The Google-only search endpoint: validation, one upstream call, allowlist filter,
    then the first five. */
module SearchGoogle {
  import opened Js
  import opened Seqs
  import opened Allowlist
  import opened Items
  import SearchMixed

  /** The publisher table of this endpoint: the aggregated endpoint's table without
      "magazine.hankyung.com". */
  const NewsDomains: seq<string> := [
    "yna.co.kr", "yonhapnews.co.kr", "joongang.co.kr", "joins.com", "chosun.com", "donga.com",
    "hani.co.kr", "khan.co.kr", "hankookilbo.com", "mk.co.kr", "sedaily.com", "edaily.co.kr",
    "biz.chosun.com", "heraldcorp.com", "news.jtbc.co.kr", "mbn.co.kr", "ytn.co.kr",
    "news.kbs.co.kr", "imnews.imbc.com", "news.sbs.co.kr", "hankyung.com", "wowtv.co.kr",
    "ohmynews.com", "pressian.com", "sisain.co.kr", "kyunghyang.com", "news.mt.co.kr", "moneys.co.kr"
  ]

  const ItemCap: nat := 5

  datatype Body =
    | Error(message: string)
    | GoogleError(data: GoogleData)
    | Items(items: seq<SearchItem>)
    | Thrown                       // `{ error: e.message }`; the message text is not modelled

  datatype Response = Response(status: int, body: Body)

  /** The item shape of this endpoint: four fields copied, no date. */
  function ToPlainItem(raw: GoogleRaw): (it: SearchItem)
    requires raw.link.Some?
    ensures it.sourceType == Google && Some(it.link) == raw.link && it.pubDate.None?
    ensures it.title == raw.title && it.snippet == raw.snippet && it.displayLink == raw.displayLink
  {
    SearchItem(Google, raw.title, raw.snippet, raw.link.value, raw.displayLink, None)
  }

  /** `items.filter(isNewsLink).slice(0, 5).map(...)`: the first five allowlisted
      entries, in input order. */
  function PickItems(rt: Runtime, raws: seq<GoogleRaw>): (r: seq<SearchItem>)
    ensures var kept := Allowlisted(NewsDomains, rt.hostname, raws);
      && |r| == (if |kept| < ItemCap then |kept| else ItemCap)
      && forall i :: 0 <= i < |r| ==> kept[i].link.Some? && r[i] == ToPlainItem(kept[i])
    ensures forall x :: x in r ==>
      x.sourceType == Google && x.pubDate.None? && IsNewsLink(NewsDomains, rt.hostname, x.link)
  {
    var kept := Allowlisted(NewsDomains, rt.hostname, raws);
    var first := Take(kept, ItemCap);
    assert forall i :: 0 <= i < |first| ==> first[i] == kept[i] && kept[i] in kept;
    var r := seq(|first|, i requires 0 <= i < |first| => ToPlainItem(first[i]));
    PlainMembers(NewsDomains, rt, first, r);
    r
  }

  lemma PlainMembers(domains: seq<string>, rt: Runtime, first: seq<GoogleRaw>, r: seq<SearchItem>)
    requires forall i :: 0 <= i < |first| ==> first[i].link.Some? && IsNewsLink(domains, rt.hostname, first[i].link.value)
    requires |r| == |first| && forall i :: 0 <= i < |r| ==> r[i] == ToPlainItem(first[i])
    ensures forall x :: x in r ==>
      x.sourceType == Google && x.pubDate.None? && IsNewsLink(domains, rt.hostname, x.link)
  {
    forall x | x in r
      ensures x.sourceType == Google && x.pubDate.None? && IsNewsLink(domains, rt.hostname, x.link)
    {
      var i :| 0 <= i < |r| && r[i] == x;
    }
  }

  /** `handler(req, res)`. */
  function Handler(q: Option<string>, key: Option<string>, cx: Option<string>,
                   reply: Reply<GoogleData>, rt: Runtime): (resp: Response)
    ensures !Truthy(q) ==> resp == Response(400, Error(QueryMessage))
    ensures Truthy(q) && (!Truthy(key) || !Truthy(cx)) ==> resp == Response(500, Error(GoogleEnvMessage))
    ensures resp.body.GoogleError? <==>
      (Truthy(q) && Truthy(key) && Truthy(cx) && reply.Answered? && reply.data.Some? && !IsOk(reply.status))
    ensures resp.body.GoogleError? ==> resp.status == reply.status && reply.data == Some(resp.body.data)
    ensures resp.body.Items? <==>
      (Truthy(q) && Truthy(key) && Truthy(cx) && reply.Answered? && reply.data.Some? && IsOk(reply.status))
    ensures resp.body.Items? ==> resp.status == 200 && |resp.body.items| <= ItemCap
    ensures resp.body.Items? ==>
      reply.Answered? && reply.data.Some? && resp.body.items == PickItems(rt, reply.data.value.items)
    ensures resp.body.Thrown? <==>
      (Truthy(q) && Truthy(key) && Truthy(cx) && (reply.Rejected? || reply.data.None?))
    ensures resp.body.Thrown? ==> resp.status == 500
  {
    if !Truthy(q) then Response(400, Error(QueryMessage))
    else if !Truthy(key) || !Truthy(cx) then Response(500, Error(GoogleEnvMessage))
    else match reply
      case Rejected => Response(500, Thrown)
      case Answered(status, data) =>
        if data.None? then Response(500, Thrown)       // `await r.json()` throws
        else if !IsOk(status) then Response(status, GoogleError(data.value))
        else Response(200, Items(PickItems(rt, data.value.items)))
  }

  lemma TableExtension()
    ensures SearchMixed.NewsDomains == NewsDomains + ["magazine.hankyung.com"]
  {
  }

  /** Any host under "magazine.hankyung.com" is under "hankyung.com", an entry of this table. */
  lemma MagazineCovered(host: string)
    requires MatchesDomain(host, "magazine.hankyung.com")
    ensures SomeDomainMatches(NewsDomains, host)
  {
    var sub, dom := "magazine.hankyung.com", "hankyung.com";
    assert EndsWith(sub, "." + dom) by {
      assert sub[|sub| - |"." + dom|..] == "." + dom;
    }
    SubdomainCovered(host, sub, dom);
    assert NewsDomains[20] == dom;
    SomeDomainMatchesAt(NewsDomains, host, 20);
  }

  /** The two publisher tables accept exactly the same hosts: the extra entry of the
      aggregated endpoint's table is a sub-domain of "hankyung.com", which both hold. */
  lemma SameHosts(host: string)
    ensures SomeDomainMatches(SearchMixed.NewsDomains, host) <==> SomeDomainMatches(NewsDomains, host)
  {
    TableExtension();
    SomeDomainMatchesConcat(NewsDomains, ["magazine.hankyung.com"], host);
    if SomeDomainMatches(["magazine.hankyung.com"], host) {
      MagazineCovered(host);
    }
  }

  /** Hence the two endpoints' `isNewsLink` agree on every URL. */
  lemma SameNewsLinks(hostname: string -> Option<string>, url: string)
    ensures IsNewsLink(SearchMixed.NewsDomains, hostname, url) <==> IsNewsLink(NewsDomains, hostname, url)
  {
    if hostname(url).Some? {
      var h := StripWww(hostname(url).value);
      SameHosts(h);
      SomeDomainMatchesIff(NewsDomains, h);
      SomeDomainMatchesIff(SearchMixed.NewsDomains, h);
    }
  }
}
