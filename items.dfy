/** The record shapes shared by the three search endpoints, and the field mappings
    that two of them repeat word for word. */
module Items {
  import opened Js
  import opened Seqs
  import opened Allowlist

  datatype Source = Google | Naver

  /** One normalised hit as the endpoints return it. An absent field (`undefined`,
      left out of the JSON) is `None`. */
  datatype SearchItem = SearchItem(
    sourceType: Source,
    title: Option<string>,
    snippet: Option<string>,
    link: string,
    displayLink: Option<string>,
    pubDate: Option<string>)

  /** One entry of Google's `items`; `metatags` is `pagemap.metatags`, empty when absent. */
  datatype GoogleRaw = GoogleRaw(
    title: Option<string>,
    snippet: Option<string>,
    link: Option<string>,
    displayLink: Option<string>,
    metatags: seq<map<string, string>>)

  /** Google's parsed response body; a missing `items` is the empty list. */
  datatype GoogleData = GoogleData(items: seq<GoogleRaw>)

  /** One entry of Naver's `items`. */
  datatype NaverRaw = NaverRaw(
    title: Option<string>,
    description: Option<string>,
    link: Option<string>,
    originallink: Option<string>,
    pubDate: Option<string>)

  /** Naver's parsed response body; a missing `items` is the empty list. */
  datatype NaverData = NaverData(items: seq<NaverRaw>)

  /** The `error` a backend search reports instead of throwing. */
  datatype UpstreamError<D> =
    | MissingEnv(message: string)               // credentials absent, nothing was sent
    | Payload(data: D)                          // the upstream's own JSON body, echoed
    | RequestFailed(status: int, message: string) // `{ status, message }` when the body was not JSON
    | EmptyObject                               // `{}` when the body was not JSON

  /** A backend search: its items and optional error, or an exception that escapes it. */
  datatype Outcome<D> = Done(items: seq<SearchItem>, error: Option<UpstreamError<D>>) | Threw

  const GoogleEnvMessage := "Missing GOOGLE env vars"
  const NaverEnvMessage := "Missing NAVER env vars"
  const QueryMessage := "Missing query ?q="

  /** `isNewsLink(it.link)`; an absent link makes `new URL` throw, so it is rejected. */
  predicate IsNewsRaw(domains: seq<string>, hostname: string -> Option<string>, raw: GoogleRaw) {
    raw.link.Some? && IsNewsLink(domains, hostname, raw.link.value)
  }

  /** `items.filter(it => isNewsLink(it.link))`. */
  function Allowlisted(domains: seq<string>, hostname: string -> Option<string>, raws: seq<GoogleRaw>): (r: seq<GoogleRaw>)
    ensures IsSubseq(r, raws)
    ensures forall x :: x in r ==> IsNewsRaw(domains, hostname, x)
    ensures forall x :: x in raws && IsNewsRaw(domains, hostname, x) ==> x in r
  {
    if raws == [] then []
    else if IsNewsRaw(domains, hostname, raws[0]) then
      var rest := Allowlisted(domains, hostname, raws[1..]);
      assert ([raws[0]] + rest)[1..] == rest;
      [raws[0]] + rest
    else Allowlisted(domains, hostname, raws[1..])
  }

  /** The filter keeps every copy of an allowlisted entry: repeats are not merged. */
  lemma {:induction false} AllowlistedCounts(domains: seq<string>, hostname: string -> Option<string>,
                                             raws: seq<GoogleRaw>, x: GoogleRaw)
    requires IsNewsRaw(domains, hostname, x)
    ensures multiset(Allowlisted(domains, hostname, raws))[x] == multiset(raws)[x]
  {
    if raws != [] {
      AllowlistedCounts(domains, hostname, raws[1..], x);
      assert raws == [raws[0]] + raws[1..];
    }
  }

  /** `it.link || it.originallink || ""`. */
  function NaverLink(raw: NaverRaw): (link: string)
    ensures link == "" <==> !Truthy(raw.link) && !Truthy(raw.originallink)
    ensures link == "" || Some(link) == raw.link || Some(link) == raw.originallink
    ensures Truthy(raw.link) ==> Some(link) == raw.link
  {
    OrElse(raw.link, OrElse(raw.originallink, ""))
  }

  /** `new URL(link).hostname.replace(/^www\./, "")`, or "" when the URL constructor throws. */
  function DisplayHost(hostname: string -> Option<string>, link: string): (d: string)
    ensures hostname(link).None? ==> d == ""
    ensures hostname(link).Some? && StartsWith(hostname(link).value, "www.") ==> hostname(link).value == "www." + d
    ensures hostname(link).Some? && !StartsWith(hostname(link).value, "www.") ==> d == hostname(link).value
  {
    match hostname(link)
    case None => ""
    case Some(h) => StripWww(h)
  }
}
