/** The aggregated search endpoint: both backends, merged, de-duplicated by link,
    newest first, at most ten. */
module SearchMixed {
  import opened Js
  import opened Seqs
  import opened Text
  import opened Allowlist
  import opened Items
  import opened StableSort

  /** The publisher table of this endpoint. */
  const NewsDomains: seq<string> := [
    "yna.co.kr", "yonhapnews.co.kr", "joongang.co.kr", "joins.com", "chosun.com", "donga.com",
    "hani.co.kr", "khan.co.kr", "hankookilbo.com", "mk.co.kr", "sedaily.com", "edaily.co.kr",
    "biz.chosun.com", "heraldcorp.com", "news.jtbc.co.kr", "mbn.co.kr", "ytn.co.kr",
    "news.kbs.co.kr", "imnews.imbc.com", "news.sbs.co.kr", "hankyung.com", "wowtv.co.kr",
    "ohmynews.com", "pressian.com", "sisain.co.kr", "kyunghyang.com", "news.mt.co.kr", "moneys.co.kr",
    "magazine.hankyung.com"
  ]

  /** The cap on each backend's own list. */
  const BackendCap: nat := 10

  /** The cap on the merged, ranked list. */
  const ResultCap: nat := 10

  /** The process environment the endpoint reads its credentials from. */
  datatype Env = Env(googleKey: Option<string>, googleCx: Option<string>,
                     naverId: Option<string>, naverSecret: Option<string>)

  datatype Body =
    | QueryError(message: string)
    | Results(items: seq<SearchItem>,
              googleError: Option<UpstreamError<GoogleData>>,
              naverError: Option<UpstreamError<NaverData>>)
    | Thrown                       // `{ error: e.message }`; the message text is not modelled

  datatype Response = Response(status: int, body: Body)

  /* ---------------- stripTags ---------------- */

  /** `stripTags(s)`: tags removed, white space runs collapsed to one blank, trimmed. */
  function StripTags(s: string): (r: string)
    ensures r == [] || (!IsSpace(r[0]) && !IsSpace(r[|r| - 1]))
    ensures SingleSpaced(r)
    ensures NonSpace(r) == NonSpace(RemoveTags(s))
  {
    TrimCollapsed(RemoveTags(s));
    Trim(CollapseSpaces(RemoveTags(s)))
  }

  /** The same result as a reference definition: the words of the tag-free text
      joined by single blanks. */
  lemma StripTagsWords(s: string)
    ensures StripTags(s) == JoinBlank(Words(RemoveTags(s)))
  {
    TrimCollapsed(RemoveTags(s));
  }

  /* ---------------- dates ---------------- */

  /** `toDate(v)`: nothing for a falsy value or an invalid date. */
  function ToDate(rt: Runtime, v: Option<string>): (d: Option<int>)
    ensures d.Some? ==> Truthy(v) && rt.parseDate(v.value) == d
    ensures Truthy(v) ==> d == rt.parseDate(v.value)
  {
    if Truthy(v) then rt.parseDate(v.value) else None
  }

  /** The `_ts` sort key: the date's time, or 0 when there is none. */
  function Timestamp(rt: Runtime, it: SearchItem): (ts: int)
    ensures ToDate(rt, it.pubDate).None? ==> ts == 0
    ensures ToDate(rt, it.pubDate).Some? ==> ts == ToDate(rt, it.pubDate).value
  {
    ToDate(rt, it.pubDate).GetOr(0)
  }

  function TsKey(rt: Runtime): SearchItem -> int {
    it => Timestamp(rt, it)
  }

  /* ---------------- dedupeByLink ---------------- */

  /** `(link || "").replace(/\/$/, "")`: at most one trailing slash removed. */
  function LinkKey(link: string): (k: string)
    ensures link == k || link == k + "/"
    ensures link == k + "/" <==> |link| > 0 && link[|link| - 1] == '/'
  {
    if |link| > 0 && link[|link| - 1] == '/' then link[..|link| - 1] else link
  }

  function ItemKey(it: SearchItem): string {
    LinkKey(it.link)
  }

  predicate NoDuplicateKeys(s: seq<SearchItem>) {
    forall i, j :: 0 <= i < j < |s| ==> ItemKey(s[i]) != ItemKey(s[j])
  }

  function KeysOf(s: seq<SearchItem>): set<string> {
    if s == [] then {} else {ItemKey(s[0])} + KeysOf(s[1..])
  }

  /** The earliest item of `s` whose key is `k`. */
  function FirstWithKey(s: seq<SearchItem>, k: string): Option<SearchItem> {
    if s == [] then None
    else if ItemKey(s[0]) == k then Some(s[0])
    else FirstWithKey(s[1..], k)
  }

  /** The `filter` of `dedupeByLink`, with `seen` the keys the callback has recorded. */
  function DedupeFrom(items: seq<SearchItem>, seen: set<string>): (r: seq<SearchItem>)
    ensures |r| <= |items|
    ensures forall x :: x in r ==> x in items && ItemKey(x) != "" && ItemKey(x) !in seen
  {
    if items == [] then []
    else
      var key := ItemKey(items[0]);
      if key == "" || key in seen then DedupeFrom(items[1..], seen)
      else [items[0]] + DedupeFrom(items[1..], seen + {key})
  }

  /** `dedupeByLink(items)`: one pass with a set of keys already seen. */
  method DedupeByLink(items: seq<SearchItem>) returns (kept: seq<SearchItem>)
    ensures kept == DedupeFrom(items, {})
    ensures IsSubseq(kept, items)
    ensures NoDuplicateKeys(kept)
    ensures forall x :: x in kept ==> ItemKey(x) != ""
  {
    var seen: set<string> := {};
    kept := [];
    var i := 0;
    while i < |items|
      invariant 0 <= i <= |items|
      invariant kept + DedupeFrom(items[i..], seen) == DedupeFrom(items, {})
    {
      var key := ItemKey(items[i]);
      assert items[i..][1..] == items[i + 1..];
      if key != "" && key !in seen {
        seen := seen + {key};
        kept := kept + [items[i]];
      }
      i := i + 1;
    }
    assert items[i..] == [];
    DedupeShape(items, {});
  }

  lemma {:induction false} DedupeShape(items: seq<SearchItem>, seen: set<string>)
    ensures IsSubseq(DedupeFrom(items, seen), items)
    ensures NoDuplicateKeys(DedupeFrom(items, seen))
    ensures forall x :: x in DedupeFrom(items, seen) ==> ItemKey(x) != "" && ItemKey(x) !in seen
  {
    if items != [] {
      var key := ItemKey(items[0]);
      if key == "" || key in seen {
        DedupeShape(items[1..], seen);
      } else {
        var rest := DedupeFrom(items[1..], seen + {key});
        DedupeShape(items[1..], seen + {key});
        var r := [items[0]] + rest;
        assert r[1..] == rest;
        forall i, j | 0 <= i < j < |r| ensures ItemKey(r[i]) != ItemKey(r[j]) {
          assert r[j] == rest[j - 1];
          if i > 0 {
            assert r[i] == rest[i - 1];
          }
        }
      }
    }
  }

  /** Every key that is non-empty and not yet seen survives. */
  lemma {:induction false} DedupeKeys(items: seq<SearchItem>, seen: set<string>)
    ensures KeysOf(DedupeFrom(items, seen)) == KeysOf(items) - {""} - seen
  {
    if items != [] {
      var key := ItemKey(items[0]);
      if key == "" || key in seen {
        DedupeKeys(items[1..], seen);
      } else {
        DedupeKeys(items[1..], seen + {key});
        assert ([items[0]] + DedupeFrom(items[1..], seen + {key}))[1..]
            == DedupeFrom(items[1..], seen + {key});
      }
    }
  }

  /** First occurrence wins: each survivor is the earliest item with its key. */
  lemma {:induction false} DedupeFirstWins(items: seq<SearchItem>, seen: set<string>)
    ensures forall x :: x in DedupeFrom(items, seen) ==> FirstWithKey(items, ItemKey(x)) == Some(x)
  {
    if items != [] {
      var key := ItemKey(items[0]);
      if key == "" || key in seen {
        DedupeFirstWins(items[1..], seen);
        DedupeShape(items[1..], seen);
      } else {
        DedupeFirstWins(items[1..], seen + {key});
        DedupeShape(items[1..], seen + {key});
      }
    }
  }

  lemma {:induction false} FirstWithKeyConcat(a: seq<SearchItem>, b: seq<SearchItem>, k: string)
    ensures FirstWithKey(a + b, k)
         == if FirstWithKey(a, k).Some? then FirstWithKey(a, k) else FirstWithKey(b, k)
  {
    if a == [] {
      assert a + b == b;
    } else {
      assert (a + b)[1..] == a[1..] + b;
      FirstWithKeyConcat(a[1..], b, k);
    }
  }

  lemma {:induction false} FirstWithKeyIn(s: seq<SearchItem>, k: string)
    ensures FirstWithKey(s, k).Some? ==> FirstWithKey(s, k).value in s && ItemKey(FirstWithKey(s, k).value) == k
    ensures k in KeysOf(s) ==> FirstWithKey(s, k).Some?
  {
    if s != [] {
      FirstWithKeyIn(s[1..], k);
    }
  }

  /** Google's items are merged first, so a Google item beats a Naver item that
      shares its key. */
  lemma GoogleWins(gs: seq<SearchItem>, ns: seq<SearchItem>, x: SearchItem)
    requires forall g :: g in gs ==> g.sourceType == Google
    requires x in DedupeFrom(gs + ns, {})
    requires ItemKey(x) in KeysOf(gs)
    ensures x.sourceType == Google
    ensures Some(x) == FirstWithKey(gs, ItemKey(x))
  {
    DedupeFirstWins(gs + ns, {});
    FirstWithKeyConcat(gs, ns, ItemKey(x));
    FirstWithKeyIn(gs, ItemKey(x));
  }

  /** Two items whose links normalise to the same key are one entry, and the earlier
      stays; a link and the same link with a trailing slash are such a pair. */
  lemma SameKeyMerges(g: SearchItem, n: SearchItem)
    requires ItemKey(g) != "" && ItemKey(n) == ItemKey(g)
    ensures DedupeFrom([g, n], {}) == [g]
  {
    var none: set<string> := {};
    assert [g, n][0] == g && [g, n][1..] == [n];
    assert [n][0] == n && [n][1..] == [];
    assert none + {ItemKey(g)} == {ItemKey(g)};
    assert DedupeFrom([n], {ItemKey(g)}) == [];
  }

  lemma SlashVariantsShareKey()
    ensures LinkKey("https://chosun.com/a/") == LinkKey("https://chosun.com/a") == "https://chosun.com/a"
  {
  }

  /** One slash is removed, not all: the key is not idempotent. */
  lemma LinkKeyNotIdempotent()
    ensures LinkKey("https://chosun.com/a//") == "https://chosun.com/a/"
    ensures LinkKey(LinkKey("https://chosun.com/a//")) != LinkKey("https://chosun.com/a//")
  {
  }

  /* ---------------- Google mapping ---------------- */

  /** The `||` chain's keys, in order. */
  const PubDateKeys: seq<string> := [
    "article:published_time", "og:published_time", "og:updated_time",
    "article:modified_time", "date", "pubdate"
  ]

  /** `meta[k0] || meta[k1] || ... || meta[kn]`: the first truthy value, or the last
      key's value (possibly "" or absent) when none is truthy. */
  function FirstTruthy(meta: map<string, string>, keys: seq<string>): (r: Option<string>)
    requires |keys| > 0
    ensures Truthy(r) || r == Lookup(meta, keys[|keys| - 1])
    ensures Truthy(Lookup(meta, keys[0])) ==> r == Lookup(meta, keys[0])
  {
    var v := Lookup(meta, keys[0]);
    if |keys| == 1 || Truthy(v) then v else FirstTruthy(meta, keys[1..])
  }

  lemma {:induction false} FirstTruthyPicksFirst(meta: map<string, string>, keys: seq<string>, k: nat)
    requires k < |keys|
    requires Truthy(Lookup(meta, keys[k]))
    requires forall j :: 0 <= j < k ==> !Truthy(Lookup(meta, keys[j]))
    ensures FirstTruthy(meta, keys) == Lookup(meta, keys[k])
  {
    if k > 0 {
      FirstTruthyPicksFirst(meta, keys[1..], k - 1);
    }
  }

  lemma {:induction false} FirstTruthyFallsThrough(meta: map<string, string>, keys: seq<string>)
    requires |keys| > 0
    requires forall j :: 0 <= j < |keys| ==> !Truthy(Lookup(meta, keys[j]))
    ensures FirstTruthy(meta, keys) == Lookup(meta, keys[|keys| - 1])
  {
    if |keys| > 1 {
      FirstTruthyFallsThrough(meta, keys[1..]);
    }
  }

  /** `it.pagemap?.metatags?.[0] || {}`. */
  function MetaOf(raw: GoogleRaw): map<string, string> {
    if |raw.metatags| > 0 then raw.metatags[0] else map[]
  }

  function GooglePubDate(raw: GoogleRaw): Option<string> {
    FirstTruthy(MetaOf(raw), PubDateKeys)
  }

  /** Only the first meta-tag record is read: with none the `{}` fallback leaves the
      date undefined, and records after the first never matter. */
  lemma MetaFromFirstTag(raw: GoogleRaw)
    ensures |raw.metatags| == 0 ==> GooglePubDate(raw).None?
    ensures |raw.metatags| > 0 ==>
              GooglePubDate(raw) == GooglePubDate(raw.(metatags := [raw.metatags[0]]))
  {
    if |raw.metatags| == 0 {
      FirstTruthyFallsThrough(MetaOf(raw), PubDateKeys);
    }
  }

  /** The aggregated endpoint's Google item: four fields copied and the date from the
      meta tags. */
  function ToGoogleItem(raw: GoogleRaw): (it: SearchItem)
    requires raw.link.Some?
    ensures it.sourceType == Google && Some(it.link) == raw.link
    ensures it.title == raw.title && it.snippet == raw.snippet && it.displayLink == raw.displayLink
    ensures it.pubDate == GooglePubDate(raw)
  {
    SearchItem(Google, raw.title, raw.snippet, raw.link.value, raw.displayLink, GooglePubDate(raw))
  }

  predicate IsNews(rt: Runtime, raw: GoogleRaw) {
    IsNewsRaw(NewsDomains, rt.hostname, raw)
  }

  /** `mapGoogleItems(items)`: the allowlisted entries, in order, each reshaped. */
  function MapGoogleItems(rt: Runtime, raws: seq<GoogleRaw>): (r: seq<SearchItem>)
    ensures var kept := Allowlisted(NewsDomains, rt.hostname, raws);
      && |r| == |kept|
      && forall i :: 0 <= i < |r| ==> kept[i].link.Some? && r[i] == ToGoogleItem(kept[i])
    ensures |r| <= |raws|
    ensures forall x :: x in r ==> x.sourceType == Google && IsNewsLink(NewsDomains, rt.hostname, x.link)
    ensures forall raw :: raw in raws && IsNews(rt, raw) ==> ToGoogleItem(raw) in r
  {
    var kept := Allowlisted(NewsDomains, rt.hostname, raws);
    assert forall i :: 0 <= i < |kept| ==> kept[i] in kept;
    var r := seq(|kept|, i requires 0 <= i < |kept| => ToGoogleItem(kept[i]));
    SubseqMembers(kept, raws);
    MappedMembers(rt, kept, r);
    r
  }

  lemma MappedMembers(rt: Runtime, kept: seq<GoogleRaw>, r: seq<SearchItem>)
    requires forall raw :: raw in kept ==> IsNews(rt, raw)
    requires |r| == |kept| && forall i :: 0 <= i < |r| ==> kept[i].link.Some? && r[i] == ToGoogleItem(kept[i])
    ensures forall x :: x in r ==> x.sourceType == Google && IsNewsLink(NewsDomains, rt.hostname, x.link)
    ensures forall raw :: raw in kept ==> ToGoogleItem(raw) in r
  {
    forall x | x in r ensures x.sourceType == Google && IsNewsLink(NewsDomains, rt.hostname, x.link) {
      var i :| 0 <= i < |r| && r[i] == x;
      assert kept[i] in kept;
    }
    forall raw | raw in kept ensures ToGoogleItem(raw) in r {
      var i :| 0 <= i < |kept| && kept[i] == raw;
      assert r[i] == ToGoogleItem(raw);
    }
  }

  /** `searchGoogle(q, key, cx)`. */
  function SearchGoogle(key: Option<string>, cx: Option<string>, reply: Reply<GoogleData>, rt: Runtime)
    : (r: Outcome<GoogleData>)
    ensures !Truthy(key) || !Truthy(cx) ==> r == Done([], Some(MissingEnv(GoogleEnvMessage)))
    ensures Truthy(key) && Truthy(cx) && reply.Answered? && !IsOk(reply.status) ==>
              r == Done([], Some(if reply.data.Some? then Payload(reply.data.value)
                                 else RequestFailed(reply.status, "Google request failed")))
    ensures Truthy(key) && Truthy(cx) && reply.Answered? && IsOk(reply.status) && reply.data.Some? ==>
              r == Done(Take(MapGoogleItems(rt, reply.data.value.items), BackendCap), None)
    ensures r.Threw? <==> (Truthy(key) && Truthy(cx)
                          && (reply.Rejected? || (IsOk(reply.status) && reply.data.None?)))
    ensures r.Done? && r.error.Some? ==> r.items == []
    ensures r.Done? ==> |r.items| <= BackendCap
    ensures r.Done? ==> forall x :: x in r.items ==>
              x.sourceType == Google && IsNewsLink(NewsDomains, rt.hostname, x.link)
  {
    if !Truthy(key) || !Truthy(cx) then Done([], Some(MissingEnv(GoogleEnvMessage)))
    else match reply
      case Rejected => Threw
      case Answered(status, data) =>
        if !IsOk(status) then
          Done([], Some(if data.Some? then Payload(data.value)
                        else RequestFailed(status, "Google request failed")))
        else if data.None? then Threw          // `data.items` on null
        else Done(Take(MapGoogleItems(rt, data.value.items), BackendCap), None)
  }

  /* ---------------- Naver mapping ---------------- */

  /** One Naver entry reshaped: link fallback, display host, and title and description
      passed through `stripTags`. */
  function NaverItem(rt: Runtime, raw: NaverRaw): (it: SearchItem)
    ensures it.sourceType == Naver && it.pubDate == raw.pubDate
    ensures it.link == NaverLink(raw) && it.displayLink == Some(DisplayHost(rt.hostname, it.link))
    ensures it.title.Some? && it.title.value == StripTags(OrElse(raw.title, ""))
    ensures it.snippet.Some? && it.snippet.value == StripTags(OrElse(raw.description, ""))
  {
    var link := NaverLink(raw);
    SearchItem(Naver, Some(StripTags(OrElse(raw.title, ""))), Some(StripTags(OrElse(raw.description, ""))),
               link, Some(DisplayHost(rt.hostname, link)), raw.pubDate)
  }

  /** `searchNaver(q, id, secret)`. */
  function SearchNaver(id: Option<string>, secret: Option<string>, reply: Reply<NaverData>, rt: Runtime)
    : (r: Outcome<NaverData>)
    ensures !Truthy(id) || !Truthy(secret) ==> r == Done([], Some(MissingEnv(NaverEnvMessage)))
    ensures Truthy(id) && Truthy(secret) && reply.Answered? && !IsOk(reply.status) ==>
              r == Done([], Some(if reply.data.Some? then Payload(reply.data.value) else EmptyObject))
    ensures Truthy(id) && Truthy(secret) && reply.Answered? && IsOk(reply.status) ==>
              r.Done? && r.error.None?
    ensures r.Threw? <==> Truthy(id) && Truthy(secret) && reply.Rejected?
    ensures r.Done? && r.error.Some? ==> r.items == []
    ensures r.Done? ==> |r.items| <= BackendCap && forall x :: x in r.items ==> x.sourceType == Naver
    ensures r.Done? && r.error.None? && reply.Answered? ==>
              var raws := if reply.data.Some? then reply.data.value.items else [];
              |r.items| == (if |raws| < BackendCap then |raws| else BackendCap)
              && forall i :: 0 <= i < |r.items| ==> r.items[i] == NaverItem(rt, raws[i])
  {
    if !Truthy(id) || !Truthy(secret) then Done([], Some(MissingEnv(NaverEnvMessage)))
    else match reply
      case Rejected => Threw
      case Answered(status, data) =>
        if !IsOk(status) then
          Done([], Some(if data.Some? then Payload(data.value) else EmptyObject))
        else
          Done(Take(NaverItems(rt, if data.Some? then data.value.items else []), BackendCap), None)
  }

  /** `items.map(...)` over the Naver entries. */
  function NaverItems(rt: Runtime, raws: seq<NaverRaw>): (r: seq<SearchItem>)
    ensures |r| == |raws| && forall i :: 0 <= i < |r| ==> r[i] == NaverItem(rt, raws[i])
    ensures forall x :: x in r ==> x.sourceType == Naver
  {
    seq(|raws|, i requires 0 <= i < |raws| => NaverItem(rt, raws[i]))
  }

  /* ---------------- handler ---------------- */

  /** Merge, de-duplicate, newest first, cap: at most ten items, no key twice, newest
      first, and only non-empty-keyed items that came from one of the backends. */
  function Rank(rt: Runtime, merged: seq<SearchItem>): (r: seq<SearchItem>)
    ensures |r| <= ResultCap
    ensures NoDuplicateKeys(r)
    ensures SortedDesc(r, TsKey(rt))
    ensures forall x :: x in r ==> x in merged && ItemKey(x) != ""
    ensures var d := DedupeFrom(merged, {}); |r| == (if |d| < ResultCap then |d| else ResultCap)
    ensures forall x, y :: x in DedupeFrom(merged, {}) && y in r && x !in r ==>
              Timestamp(rt, x) <= Timestamp(rt, y)
  {
    var d := DedupeFrom(merged, {});
    var s := SortDesc(d, TsKey(rt));
    DedupeShape(merged, {});
    SortDescSorted(d, TsKey(rt));
    SortPreservesKeys(rt, d);
    assert forall x :: x in s <==> x in d by {
      forall x ensures x in s <==> x in d {
        assert x in s <==> x in multiset(s);
      }
    }
    assert |s| == |d| by {
      assert |multiset(s)| == |multiset(d)|;
    }
    var r := Take(s, ResultCap);
    PrefixHoldsTop(r, s, TsKey(rt));
    r
  }

  /** The response of `handler` for query `q`, given what each upstream answers: 400
      exactly for a missing query, 500 exactly when a backend call throws, and otherwise
      200 with results, whatever errors the backends report. */
  function Answer(q: Option<string>, env: Env, google: Reply<GoogleData>, naver: Reply<NaverData>, rt: Runtime)
    : (resp: Response)
    ensures resp.status == 400 <==> !Truthy(q)
    ensures resp.status == 500 <==>
              Truthy(q) && (SearchGoogle(env.googleKey, env.googleCx, google, rt).Threw?
                            || SearchNaver(env.naverId, env.naverSecret, naver, rt).Threw?)
    ensures resp.status == 200 <==> resp.body.Results?
    ensures !Truthy(q) ==> resp == Response(400, QueryError(QueryMessage))
    ensures resp.status == 500 ==> resp.body == Thrown
    ensures Truthy(q) ==>
              var g := SearchGoogle(env.googleKey, env.googleCx, google, rt);
              var n := SearchNaver(env.naverId, env.naverSecret, naver, rt);
              !g.Threw? && !n.Threw? ==>
                resp == Response(200, Results(Rank(rt, g.items + n.items), g.error, n.error))
  {
    if !Truthy(q) then Response(400, QueryError(QueryMessage))
    else
      var g := SearchGoogle(env.googleKey, env.googleCx, google, rt);
      var n := SearchNaver(env.naverId, env.naverSecret, naver, rt);
      if g.Threw? || n.Threw? then Response(500, Thrown)
      else Response(200, Results(Rank(rt, g.items + n.items), g.error, n.error))
  }

  /** `handler(req, res)`. */
  method Handler(q: Option<string>, env: Env, google: Reply<GoogleData>, naver: Reply<NaverData>, rt: Runtime)
    returns (resp: Response)
    ensures resp == Answer(q, env, google, naver, rt)
    ensures resp.body.Results? ==>
              |resp.body.items| <= ResultCap
              && NoDuplicateKeys(resp.body.items)
              && SortedDesc(resp.body.items, TsKey(rt))
  {
    if !Truthy(q) {
      return Response(400, QueryError(QueryMessage));
    }
    var g := SearchGoogle(env.googleKey, env.googleCx, google, rt);
    var n := SearchNaver(env.naverId, env.naverSecret, naver, rt);
    if g.Threw? || n.Threw? {
      return Response(500, Thrown);
    }
    var items := DedupeByLink(g.items + n.items);
    items := SortDesc(items, TsKey(rt));
    items := Take(items, ResultCap);
    var googleError: Option<UpstreamError<GoogleData>> := None;
    var naverError: Option<UpstreamError<NaverData>> := None;
    if g.error.Some? {
      googleError := g.error;
    }
    if n.error.Some? {
      naverError := n.error;
    }
    resp := Response(200, Results(items, googleError, naverError));
  }

  lemma SortPreservesKeys(rt: Runtime, d: seq<SearchItem>)
    requires NoDuplicateKeys(d)
    ensures NoDuplicateKeys(SortDesc(d, TsKey(rt)))
  {
    assert DistinctBy(d, ItemKey);
    SortDescDistinct(d, TsKey(rt), ItemKey);
  }

  /** Ties keep the merged order: among items with equal timestamps the ranked list
      is a prefix of the de-duplicated list's order. */
  lemma RankStable(rt: Runtime, merged: seq<SearchItem>, t: int)
    ensures WithKey(Rank(rt, merged), TsKey(rt), t) <= WithKey(DedupeFrom(merged, {}), TsKey(rt), t)
  {
    var d := DedupeFrom(merged, {});
    SortDescStable(d, TsKey(rt), t);
    WithKeyPrefix(Rank(rt, merged), SortDesc(d, TsKey(rt)), TsKey(rt), t);
  }

  /** An undated item counts as time 0, so it is ranked ahead of every item dated
      before 1970 rather than after all dated items. */
  lemma UndatedBeforeNegative(rt: Runtime, merged: seq<SearchItem>, i: nat, j: nat)
    requires i < |Rank(rt, merged)| && j < |Rank(rt, merged)|
    requires ToDate(rt, Rank(rt, merged)[i].pubDate).None?
    requires Timestamp(rt, Rank(rt, merged)[j]) < 0
    ensures i < j
  {
    var r := Rank(rt, merged);
    assert TsKey(rt)(r[i]) == 0;
  }

  /** With no credentials at all, nothing is sent and the query still succeeds with an
      empty list and both errors reported. */
  lemma NoCredentialsAnswer(q: Option<string>, google: Reply<GoogleData>, naver: Reply<NaverData>, rt: Runtime)
    requires Truthy(q)
    ensures Answer(q, Env(None, None, None, None), google, naver, rt)
         == Response(200, Results([], Some(MissingEnv(GoogleEnvMessage)), Some(MissingEnv(NaverEnvMessage))))
  {
    var none: seq<SearchItem> := [];
    assert none + none == none;
    assert Rank(rt, none) == none;
  }

  /** Publisher table spot check: a host equal to an entry is accepted. */
  lemma NewsDomainsAcceptExact()
    ensures SomeDomainMatches(NewsDomains, "chosun.com")
  {
    assert NewsDomains[4] == "chosun.com";
    SomeDomainMatchesAt(NewsDomains, "chosun.com", 4);
  }

  /** Publisher table spot check: a sub-domain of an entry is accepted. */
  lemma NewsDomainsAcceptSubdomain()
    ensures SomeDomainMatches(NewsDomains, "news.chosun.com")
  {
    assert NewsDomains[4] == "chosun.com";
    assert "news.chosun.com"[4..] == ".chosun.com";
    SomeDomainMatchesAt(NewsDomains, "news.chosun.com", 4);
  }

  /** Publisher table spot check: a "www." host is accepted once the prefix is dropped. */
  lemma NewsDomainsAcceptWww()
    ensures SomeDomainMatches(NewsDomains, StripWww("www.hani.co.kr"))
  {
    assert StripWww("www.hani.co.kr") == "hani.co.kr" by {
      assert "www.hani.co.kr"[..4] == "www.";
    }
    assert NewsDomains[6] == "hani.co.kr";
    SomeDomainMatchesAt(NewsDomains, "hani.co.kr", 6);
  }

  /** The only table entries "xchosun.com" could match are itself and "com". */
  lemma LookalikeCandidates(d: string)
    requires MatchesDomain("xchosun.com", d)
    ensures d == "xchosun.com" || d == "com"
  {
    var h := "xchosun.com";
    if d != h {
      var k := |h| - |"." + d|;
      assert h[k..] == "." + d;
      assert h[k] == ("." + d)[0] == '.';
      assert h[0] == 'x' && h[1] == 'c' && h[2] == 'h' && h[3] == 'o' && h[4] == 's';
      assert h[5] == 'u' && h[6] == 'n' && h[8] == 'c' && h[9] == 'o' && h[10] == 'm';
      assert k == 7;
      assert d == h[8..];
    }
  }

  /** A look-alike host is not a sub-domain: the table holds neither candidate. */
  lemma NewsDomainsRejectLookalike()
    ensures !SomeDomainMatches(NewsDomains, "xchosun.com")
  {
    forall i | 0 <= i < |NewsDomains| ensures !MatchesDomain("xchosun.com", NewsDomains[i]) {
      if MatchesDomain("xchosun.com", NewsDomains[i]) {
        LookalikeCandidates(NewsDomains[i]);
      }
    }
    SomeDomainMatchesIff(NewsDomains, "xchosun.com");
  }
}
