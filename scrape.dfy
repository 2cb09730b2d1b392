/**
 * The `POST /scrape` handler as a function from the request body to the
 * response it sends. The page fetch, the two generation calls and URL
 * parsing are parameters: `fetch` gets the URL string and yields the page
 * body or a fault; `discover` gets `topic`, `focus` and the rendered
 * regions and yields the first model reply (of opaque type `R`); `compose`
 * gets that reply and the normalised text and yields the post text.
 */
module Scrape {
  import opened Wrappers
  import opened JsValue
  import opened Normalizer
  import opened NormalizerFacts
  import opened Validation
  import opened Upstream

  /** The JSON body of a response. */
  datatype Body<R> =
    | ErrorOnly(error: string)                     // { error }
    | Failed(error: string)                        // { ok: false, error }
    | Scraped(url: string, html: string, text: string, modelResponse: R, post: string)
                                                   // { ok: true, url, html, text, modelResponse, post }

  /** What the handler does with `res`: nothing at all, or one status with
      one JSON body. */
  datatype Response<R> = NoResponse | Send(status: int, body: Body<R>)

  /** The `catch` block's response. */
  function FaultResponse<R>(e: Fault): (resp: Response<R>)
    ensures resp.Send? && resp.status == 500 && resp.body.Failed? && resp.body.error != ""
  {
    Send(500, Failed(FaultMessage(e)))
  }

  /** The prompt's template literal converts `topic`, `focus` and the
      rendered regions to strings; it throws unless all three convert. */
  predicate PromptConvertible(req: Request) {
    Convertible(req.topic) && Convertible(req.focus) && Convertible(req.regions)
  }

  /** The fast path for a validated request: fetch, normalise, build the
      prompt (which throws on a value without a primitive), the two
      generation calls, each step run only after the previous one
      succeeded; the first fault ends the request. */
  function FastPath<R>(
    req: Request,
    fetch: string -> Result<string, Fault>,
    discover: (Json, Json, Json) -> Result<R, Fault>,
    compose: (R, string) -> Result<string, Fault>
  ): (resp: Response<R>)
    ensures resp.Send? && (resp.status == 200 || resp.status == 500)
    ensures resp.status == 200 <==> resp.body.Scraped?
    ensures resp.status == 500 <==> resp.body.Failed?
    ensures resp.body.Scraped? ==>
      && PromptConvertible(req)
      && resp.body.url == req.target.href
      && fetch(req.target.href) == Success(resp.body.html)
      && resp.body.text == Normalize(resp.body.html)
      && discover(req.topic, req.focus, req.regions) == Success(resp.body.modelResponse)
      && compose(resp.body.modelResponse, resp.body.text) == Success(resp.body.post)
    ensures var page := fetch(req.target.href);
      var reply := discover(req.topic, req.focus, req.regions);
      page.Success? && PromptConvertible(req) && reply.Success?
      && compose(reply.value, Normalize(page.value)).Success? ==>
        resp == Send(200, Scraped(req.target.href, page.value, Normalize(page.value), reply.value,
                                  compose(reply.value, Normalize(page.value)).value))
    ensures fetch(req.target.href).Success? && !PromptConvertible(req) ==>
      resp == FaultResponse(NotPrimitiveFault)
  {
    match fetch(req.target.href)
    case Failure(e) => FaultResponse(e)
    case Success(html) =>
      var text := Normalize(html);
      if !PromptConvertible(req) then FaultResponse(NotPrimitiveFault)
      else
        match discover(req.topic, req.focus, req.regions)
        case Failure(e) => FaultResponse(e)
        case Success(reply) =>
          match compose(reply, text)
          case Failure(e) => FaultResponse(e)
          case Success(post) => Send(200, Scraped(req.target.href, html, text, reply, post))
  }

  /** The whole handler: the checks in order (a throw among them goes to
      the `catch` block), then, unless `rendered` is truthy, the fast path. A truthy `rendered` reaches the end of the
      handler without a response. */
  function Handle<R>(
    body: Json,
    parse: string -> Option<Url>,
    fetch: string -> Result<string, Fault>,
    discover: (Json, Json, Json) -> Result<R, Fault>,
    compose: (R, string) -> Result<string, Fault>
  ): (resp: Response<R>)
    ensures resp.NoResponse? <==> Validate(body, parse).Success? && Validate(body, parse).value.rendered
    ensures resp.Send? ==> resp.status == 200 || resp.status == 400 || resp.status == 500
    ensures resp.Send? && resp.status == 400 <==>
      Validate(body, parse).Failure? && Validate(body, parse).error.Rejected?
    ensures Validate(body, parse).Failure? && Validate(body, parse).error.Rejected? ==>
      resp == Send(400, ErrorOnly(ErrorText(Validate(body, parse).error.reason)))
    ensures Validate(body, parse).Failure? && Validate(body, parse).error.Threw? ==>
      resp == FaultResponse(Validate(body, parse).error.fault)
    ensures resp.Send? && resp.status == 200 ==>
      && resp.body.Scraped?
      && resp.body.url == Validate(body, parse).value.target.href
      && resp.body.text == Normalize(resp.body.html)
    ensures Validate(body, parse).Success? && !Validate(body, parse).value.rendered ==>
      resp == FastPath(Validate(body, parse).value, fetch, discover, compose)
  {
    match Validate(body, parse)
    case Failure(Rejected(invalid)) => Send(400, ErrorOnly(ErrorText(invalid)))
    case Failure(Threw(e)) => FaultResponse(e)
    case Success(req) =>
      if req.rendered then NoResponse
      else FastPath(req, fetch, discover, compose)
  }

  /** Nothing is fetched or generated for a body that fails a check or asks
      for `rendered`: the response does not depend on the three calls. */
  lemma NoCallsUnlessFastPath<R>(
    body: Json,
    parse: string -> Option<Url>,
    fetch1: string -> Result<string, Fault>,
    discover1: (Json, Json, Json) -> Result<R, Fault>,
    compose1: (R, string) -> Result<string, Fault>,
    fetch2: string -> Result<string, Fault>,
    discover2: (Json, Json, Json) -> Result<R, Fault>,
    compose2: (R, string) -> Result<string, Fault>
  )
    requires Validate(body, parse).Failure? || Validate(body, parse).value.rendered
    ensures Handle(body, parse, fetch1, discover1, compose1) == Handle(body, parse, fetch2, discover2, compose2)
  {
  }

  /** An `audience_regions` array holding an object with its own `toString`
      key makes `join` throw before the URL is even parsed: the answer is
      the `catch` block's 500 with the TypeError's message, whatever the
      URL, the parser and the three calls would give. */
  lemma RegionWithToStringKeyThrows<R>(
    body: Json,
    parse: string -> Option<Url>,
    fetch: string -> Result<string, Fault>,
    discover: (Json, Json, Json) -> Result<R, Fault>,
    compose: (R, string) -> Result<string, Fault>,
    i: nat
  )
    requires FieldsGiven(body)
    requires var regions := Get(Get(Payload(body), "post_topic"), "audience_regions");
      regions.Arr? && i < |regions.items| && regions.items[i].Obj? && "toString" in regions.items[i].fields
    ensures Handle(body, parse, fetch, discover, compose) ==
      Send(500, Failed("Cannot convert object to primitive value"))
  {
    var regions := Get(Get(Payload(body), "post_topic"), "audience_regions");
    assert !Convertible(regions.items[i]);
    assert !RegionsRenderable(body);
  }

  /** A body asking for an `ftp:` URL with the given `audience_regions`. */
  function FtpBody(regions: Json): Json {
    Obj(map[
      "url" := Str("ftp://example.com"),
      "post_topic" := Obj(map["topic" := Str("a"), "focus" := Str("b"), "audience_regions" := regions])])
  }

  /** What the checks read from `FtpBody(regions)`. */
  lemma FtpBodyFields(regions: Json)
    requires Truthy(regions)
    ensures FieldsGiven(FtpBody(regions)) && UrlOf(FtpBody(regions)) == "ftp://example.com"
    ensures Get(Get(Payload(FtpBody(regions)), "post_topic"), "audience_regions") == regions
  {
    var postTopic := Obj(map["topic" := Str("a"), "focus" := Str("b"), "audience_regions" := regions]);
    assert Payload(FtpBody(regions)) == FtpBody(regions);
    assert Get(FtpBody(regions), "url") == Str("ftp://example.com");
    assert Get(FtpBody(regions), "post_topic") == postTopic;
    assert Get(postTopic, "topic") == Str("a");
    assert Get(postTopic, "focus") == Str("b");
    assert Get(postTopic, "audience_regions") == regions;
  }

  /** The case in point: a body whose only region is `{"toString": 1}` gets
      the 500 whatever the parser makes of its `ftp:` URL, which the
      protocol check would otherwise reject (compare `FtpBodyRejected`). */
  lemma ToStringKeyRegion<R>(
    parse: string -> Option<Url>,
    fetch: string -> Result<string, Fault>,
    discover: (Json, Json, Json) -> Result<R, Fault>,
    compose: (R, string) -> Result<string, Fault>
  )
    ensures Handle(FtpBody(Arr([Obj(map["toString" := Num(1)])])), parse, fetch, discover, compose) ==
      Send(500, Failed("Cannot convert object to primitive value"))
  {
    var bad := Arr([Obj(map["toString" := Num(1)])]);
    FtpBodyFields(bad);
    RegionWithToStringKeyThrows(FtpBody(bad), parse, fetch, discover, compose, 0);
  }

  /** With the region "US" instead, the same body reaches the protocol
      check and is rejected with its 400. */
  lemma FtpBodyRejected<R>(
    parse: string -> Option<Url>,
    fetch: string -> Result<string, Fault>,
    discover: (Json, Json, Json) -> Result<R, Fault>,
    compose: (R, string) -> Result<string, Fault>
  )
    requires parse("ftp://example.com") == Some(Url("ftp:", "ftp://example.com"))
    ensures Handle(FtpBody(Arr([Str("US")])), parse, fetch, discover, compose) ==
      Send(400, ErrorOnly("Only http/https URLs are allowed."))
  {
    var good := Arr([Str("US")]);
    FtpBodyFields(good);
    assert Convertible(good) by {
      assert Convertible(good.items[0]);
    }
    assert Validate(FtpBody(good), parse) == Failure(Rejected(ProtocolRejected));
  }

  /** The page is fetched at the parsed URL's serialisation, not at the raw
      `url` string: only what `fetch` does there matters. */
  lemma FetchSeesSerialisedUrl<R>(
    body: Json,
    parse: string -> Option<Url>,
    fetch1: string -> Result<string, Fault>,
    fetch2: string -> Result<string, Fault>,
    discover: (Json, Json, Json) -> Result<R, Fault>,
    compose: (R, string) -> Result<string, Fault>
  )
    requires Validate(body, parse).Success?
    requires fetch1(Validate(body, parse).value.target.href) == fetch2(Validate(body, parse).value.target.href)
    ensures Handle(body, parse, fetch1, discover, compose) == Handle(body, parse, fetch2, discover, compose)
  {
  }

  /** Any failing step yields the `catch` block's 500 response for its
      fault, and the results of earlier steps are dropped. */
  lemma FaultsBecome500<R>(
    req: Request,
    fetch: string -> Result<string, Fault>,
    discover: (Json, Json, Json) -> Result<R, Fault>,
    compose: (R, string) -> Result<string, Fault>
  )
    ensures var page := fetch(req.target.href);
      page.Failure? ==> FastPath(req, fetch, discover, compose) == FaultResponse(page.error)
    ensures var page := fetch(req.target.href);
      var reply := discover(req.topic, req.focus, req.regions);
      page.Success? && PromptConvertible(req) && reply.Failure? ==>
        FastPath(req, fetch, discover, compose) == FaultResponse(reply.error)
    ensures var page := fetch(req.target.href);
      var reply := discover(req.topic, req.focus, req.regions);
      page.Success? && PromptConvertible(req) && reply.Success?
      && compose(reply.value, Normalize(page.value)).Failure? ==>
        FastPath(req, fetch, discover, compose) == FaultResponse(compose(reply.value, Normalize(page.value)).error)
  {
  }

  /** The `text` of a 200 response is trimmed, single-spaced, holds no tag
      and is left unchanged by normalising it again. */
  lemma ScrapedTextIsClean<R>(
    body: Json,
    parse: string -> Option<Url>,
    fetch: string -> Result<string, Fault>,
    discover: (Json, Json, Json) -> Result<R, Fault>,
    compose: (R, string) -> Result<string, Fault>
  )
    requires Handle(body, parse, fetch, discover, compose).Send?
    requires Handle(body, parse, fetch, discover, compose).status == 200
    ensures var text := Handle(body, parse, fetch, discover, compose).body.text;
      Clean(text) && NoTag(text) && Normalize(text) == text
  {
    var html := Handle(body, parse, fetch, discover, compose).body.html;
    NormalizeIsClean(html);
    NormalizeIdempotent(html);
  }
}
