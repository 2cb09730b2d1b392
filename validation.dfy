/**
 * The early-return checks at the top of the `/scrape` handler, in their
 * order, each with the exact 400 message it sends, and the values the rest
 * of the handler reads from a body that passes them.
 */
module Validation {
  import opened Wrappers
  import opened JsValue
  import opened Upstream

  /** What the handler reads from `new URL(url)`: its `protocol` and its
      serialisation `toString()`. Parsing itself is a parameter. */
  datatype Url = Url(protocol: string, href: string)

  /** The five ways a body is turned away, in the order they are checked. */
  datatype Invalid =
    | UrlMissing
    | PostTopicMissing
    | TopicFieldsMissing
    | UrlUnparsable
    | ProtocolRejected

  /** The `error` text of each 400 response. */
  function ErrorText(e: Invalid): string {
    match e
    case UrlMissing => "Body must include a string 'url'."
    case PostTopicMissing =>
      "Body must include a 'post_topic' object with topic, focus, and audience_regions."
    case TopicFieldsMissing =>
      "post_topic must include 'topic', 'focus', and 'audience_regions' fields."
    case UrlUnparsable => "Invalid URL."
    case ProtocolRejected => "Only http/https URLs are allowed."
  }

  /** How the checks stop a request: with one of the 400 responses, or by
      throwing, which hands the thrown value to the `catch` block. */
  datatype Halt = Rejected(reason: Invalid) | Threw(fault: Fault)

  /** The TypeError `join` throws on a region with no primitive value: it
      carries a message and no upstream response. */
  const NotPrimitiveFault: Fault := Fault(None, Some(NotPrimitiveMessage))

  /** A body that passed every check: the parsed target and the values the
      generation step and the `rendered` branch read. */
  datatype Request = Request(target: Url, topic: Json, focus: Json, regions: Json, rendered: bool)

  /** `req.body || {}`. */
  function Payload(body: Json): Json {
    if Truthy(body) then body else Obj(map[])
  }

  /** `rendered = false` in the destructuring, then read as a condition. */
  function RenderedFlag(payload: Json): bool {
    var v := Get(payload, "rendered");
    Truthy(if v.Undefined? then Bool(false) else v)
  }

  /** `audienceRegionsStr`: an array is joined with ", ", anything else is
      passed on as it is; `None` when the join throws. */
  function AudienceRegionsText(regions: Json): (r: Option<Json>)
    ensures regions.Arr? ==> (r.Some? <==> Convertible(regions))
    ensures regions.Arr? && r.Some? ==> r.value.Str?
    ensures !regions.Arr? ==> r == Some(regions)
  {
    if regions.Arr? then
      match Join(regions.items, ", ")
      case None => None
      case Some(text) => Some(Str(text))
    else Some(regions)
  }

  /** `/^https?:$/.test(protocol)`. */
  predicate ProtocolMatches(p: string) {
    && |p| >= 5
    && p[..4] == "http"
    && (p[4..] == ":" || p[4..] == "s:")
  }

  /** The body carries a non-empty string `url`. */
  predicate UrlGiven(body: Json) {
    var url := Get(Payload(body), "url");
    url.Str? && url.s != ""
  }

  function UrlOf(body: Json): string
    requires UrlGiven(body)
  {
    Get(Payload(body), "url").s
  }

  /** The body carries a `post_topic` that is an object or an array. */
  predicate PostTopicGiven(body: Json) {
    var postTopic := Get(Payload(body), "post_topic");
    postTopic.Obj? || postTopic.Arr?
  }

  /** `post_topic` has truthy `topic`, `focus` and `audience_regions`. */
  predicate TopicFieldsGiven(body: Json) {
    var postTopic := Get(Payload(body), "post_topic");
    Truthy(Get(postTopic, "topic")) && Truthy(Get(postTopic, "focus"))
      && Truthy(Get(postTopic, "audience_regions"))
  }

  /** The three body checks pass. */
  predicate FieldsGiven(body: Json) {
    UrlGiven(body) && PostTopicGiven(body) && TopicFieldsGiven(body)
  }

  /** `audience_regions` is not an array, or every element of it converts
      to a string. */
  predicate RegionsRenderable(body: Json) {
    var regions := Get(Get(Payload(body), "post_topic"), "audience_regions");
    !regions.Arr? || Convertible(regions)
  }

  /** The handler's checks, in source order; the first that fails decides
      the outcome. Joining `audience_regions` comes between the field check
      and the URL parse, and its throw stops the request there. */
  function Validate(body: Json, parse: string -> Option<Url>): (r: Result<Request, Halt>)
    ensures r == Failure(Rejected(UrlMissing)) <==> !UrlGiven(body)
    ensures r == Failure(Rejected(PostTopicMissing)) <==> UrlGiven(body) && !PostTopicGiven(body)
    ensures r == Failure(Rejected(TopicFieldsMissing)) <==>
      UrlGiven(body) && PostTopicGiven(body) && !TopicFieldsGiven(body)
    ensures r == Failure(Threw(NotPrimitiveFault)) <==> FieldsGiven(body) && !RegionsRenderable(body)
    ensures r == Failure(Rejected(UrlUnparsable)) <==>
      FieldsGiven(body) && RegionsRenderable(body) && parse(UrlOf(body)).None?
    ensures r == Failure(Rejected(ProtocolRejected)) <==>
      FieldsGiven(body) && RegionsRenderable(body) && parse(UrlOf(body)).Some?
      && parse(UrlOf(body)).value.protocol != "http:" && parse(UrlOf(body)).value.protocol != "https:"
    ensures r.Failure? && r.error.Threw? ==> r.error.fault == NotPrimitiveFault
    ensures r.Success? ==>
      && FieldsGiven(body)
      && RegionsRenderable(body)
      && parse(UrlOf(body)) == Some(r.value.target)
      && (r.value.target.protocol == "http:" || r.value.target.protocol == "https:")
    ensures r.Success? ==>
      var postTopic := Get(Payload(body), "post_topic");
      && r.value.topic == Get(postTopic, "topic")
      && r.value.focus == Get(postTopic, "focus")
      && Some(r.value.regions) == AudienceRegionsText(Get(postTopic, "audience_regions"))
      && r.value.rendered == RenderedFlag(Payload(body))
  {
    var payload := Payload(body);
    var url := Get(payload, "url");
    var postTopic := Get(payload, "post_topic");
    if !Truthy(url) || TypeOf(url) != "string" then Failure(Rejected(UrlMissing))
    else if !Truthy(postTopic) || TypeOf(postTopic) != "object" then Failure(Rejected(PostTopicMissing))
    else
      var topic := Get(postTopic, "topic");
      var focus := Get(postTopic, "focus");
      var regions := Get(postTopic, "audience_regions");
      if !Truthy(topic) || !Truthy(focus) || !Truthy(regions) then Failure(Rejected(TopicFieldsMissing))
      else
        match AudienceRegionsText(regions)
        case None => Failure(Threw(NotPrimitiveFault))
        case Some(regionsText) =>
          match parse(url.s)
          case None => Failure(Rejected(UrlUnparsable))
          case Some(target) =>
            if !ProtocolMatches(target.protocol) then Failure(Rejected(ProtocolRejected))
            else Success(Request(target, topic, focus, regionsText, RenderedFlag(payload)))
  }

  /** The protocol test accepts exactly "http:" and "https:". */
  lemma ProtocolMatchesExactly(p: string)
    ensures ProtocolMatches(p) <==> p == "http:" || p == "https:"
  {
    if ProtocolMatches(p) {
      assert p == p[..4] + p[4..];
    }
  }

  /** Only the parsed URL decides the last two checks: two parsers that
      agree on the body's `url` lead to the same outcome, whatever the raw
      string looks like. */
  lemma ValidateReadsParsedUrlOnly(body: Json, parse1: string -> Option<Url>, parse2: string -> Option<Url>)
    requires UrlGiven(body) ==> parse1(UrlOf(body)) == parse2(UrlOf(body))
    ensures Validate(body, parse1) == Validate(body, parse2)
  {
  }

  /** An array is an object to `typeof`, so an array `post_topic` gets past
      the second check and is turned away by the third. */
  lemma ArrayPostTopicFailsFieldCheck(body: Json, parse: string -> Option<Url>)
    requires UrlGiven(body)
    requires Get(Payload(body), "post_topic").Arr?
    ensures Validate(body, parse) == Failure(Rejected(TopicFieldsMissing))
  {
  }

  /** An empty `audience_regions` array is truthy, so it passes the field
      check, and it becomes the empty string. */
  lemma EmptyRegionsAccepted(body: Json, parse: string -> Option<Url>)
    requires UrlGiven(body) && PostTopicGiven(body)
    requires Get(Get(Payload(body), "post_topic"), "audience_regions") == Arr([])
    ensures Validate(body, parse) != Failure(Rejected(TopicFieldsMissing)) <==>
      Truthy(Get(Get(Payload(body), "post_topic"), "topic"))
      && Truthy(Get(Get(Payload(body), "post_topic"), "focus"))
    ensures Validate(body, parse).Success? ==> Validate(body, parse).value.regions == Str("")
  {
  }

  /** How `audience_regions` is rendered: a one-element array gives its
      element, an array of strings gives them separated by ", ", a string
      is passed on unchanged. */
  lemma {:induction false} AudienceRegionsRendering(regions: Json)
    ensures regions.Arr? && |regions.items| == 1 && regions.items[0].Str? ==>
      AudienceRegionsText(regions) == Some(regions.items[0])
    ensures regions.Arr? && (forall i :: 0 <= i < |regions.items| ==> regions.items[i].Str?) ==>
      AudienceRegionsText(regions) ==
        Some(Str(Interleave(seq(|regions.items|, i requires 0 <= i < |regions.items| => regions.items[i].s), ", ")))
    ensures regions.Str? ==> AudienceRegionsText(regions) == Some(regions)
  {
    if regions.Arr? && (forall i :: 0 <= i < |regions.items| ==> regions.items[i].Str?) {
      JoinOfStrings(regions.items, ", ");
    }
  }

  /** `["US", "EU"]` is rendered as "US, EU". */
  lemma TwoRegions()
    ensures AudienceRegionsText(Arr([Str("US"), Str("EU")])) == Some(Str("US, EU"))
  {
    var items := [Str("US"), Str("EU")];
    assert items[1..] == [Str("EU")];
    assert ToJsString(items[0]) == Some("US");
    assert Join(items[1..], ", ") == Some("EU");
    assert Join(items, ", ") == Some("US" + ", " + "EU");
    assert "US" + ", " + "EU" == "US, EU";
    assert Arr([Str("US"), Str("EU")]).items == items;
  }
}
