/** The Naver-only search endpoint: validation, one upstream call, then the first
    five entries reshaped, with no allowlist. */
module SearchNaver {
  import opened Js
  import opened Seqs
  import opened Text
  import opened Items

  const ItemCap: nat := 5

  datatype Body =
    | Error(message: string)
    | NaverError(data: Option<NaverData>)  // `None` is the `{}` that replaces a non-JSON body
    | Items(items: seq<SearchItem>)
    | Thrown                               // `{ error: e.message }`; the message text is not modelled

  datatype Response = Response(status: int, body: Body)

  /** The item shape of this endpoint: tags removed from title and description, but
      white space neither collapsed nor trimmed. */
  function PlainNaverItem(rt: Runtime, raw: NaverRaw): (it: SearchItem)
    ensures it.sourceType == Naver && it.pubDate == raw.pubDate && it.link == NaverLink(raw)
    ensures it.displayLink == Some(DisplayHost(rt.hostname, it.link))
    ensures it.title == Some(RemoveTags(OrElse(raw.title, "")))
    ensures it.snippet == Some(RemoveTags(OrElse(raw.description, "")))
    ensures it.title.Some? && TagFree(it.title.value)
    ensures it.snippet.Some? && TagFree(it.snippet.value)
  {
    var link := NaverLink(raw);
    RemoveTagsTagFree(OrElse(raw.title, ""));
    RemoveTagsTagFree(OrElse(raw.description, ""));
    SearchItem(Naver, Some(RemoveTags(OrElse(raw.title, ""))), Some(RemoveTags(OrElse(raw.description, ""))),
               link, Some(DisplayHost(rt.hostname, link)), raw.pubDate)
  }

  /** `items.slice(0, 5).map(...)`: the first five entries in order, none dropped. */
  function PickItems(rt: Runtime, raws: seq<NaverRaw>): (r: seq<SearchItem>)
    ensures |r| == if |raws| < ItemCap then |raws| else ItemCap
    ensures forall i :: 0 <= i < |r| ==> r[i] == PlainNaverItem(rt, raws[i])
  {
    var first := Take(raws, ItemCap);
    seq(|first|, i requires 0 <= i < |first| => PlainNaverItem(rt, first[i]))
  }

  /** `handler(req, res)`. */
  function Handler(q: Option<string>, id: Option<string>, secret: Option<string>,
                   reply: Reply<NaverData>, rt: Runtime): (resp: Response)
    ensures !Truthy(q) ==> resp == Response(400, Error(QueryMessage))
    ensures Truthy(q) && (!Truthy(id) || !Truthy(secret)) ==> resp == Response(500, Error(NaverEnvMessage))
    ensures resp.body.NaverError? <==>
      (Truthy(q) && Truthy(id) && Truthy(secret) && reply.Answered? && !IsOk(reply.status))
    ensures resp.body.NaverError? ==> resp.status == reply.status && resp.body.data == reply.data
    ensures resp.body.Items? <==>
      (Truthy(q) && Truthy(id) && Truthy(secret) && reply.Answered? && IsOk(reply.status))
    ensures resp.body.Items? ==> resp.status == 200
    ensures resp.body.Items? ==>
      (reply.Answered?
       && resp.body.items == PickItems(rt, if reply.data.Some? then reply.data.value.items else []))
    ensures resp.body.Items? ==>
      var raws := if reply.data.Some? then reply.data.value.items else [];
      |resp.body.items| == (if |raws| < ItemCap then |raws| else ItemCap)
    ensures resp.body.Thrown? <==> (Truthy(q) && Truthy(id) && Truthy(secret) && reply.Rejected?)
    ensures resp.body.Thrown? ==> resp.status == 500
  {
    if !Truthy(q) then Response(400, Error(QueryMessage))
    else if !Truthy(id) || !Truthy(secret) then Response(500, Error(NaverEnvMessage))
    else match reply
      case Rejected => Response(500, Thrown)
      case Answered(status, data) =>
        if !IsOk(status) then Response(status, NaverError(data))
        else Response(200, Items(PickItems(rt, if data.Some? then data.value.items else [])))
  }

  /** Text without a '<' passes tag removal unchanged, white space included. */
  lemma RemoveTagsKeepsPlainText(s: string)
    requires '<' !in s
    ensures RemoveTags(s) == s
  {
    RemoveTagsKeepsPlainPrefix(s, []);
    assert s + [] == s;
  }
}
