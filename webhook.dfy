/**
 * The webhook dispatcher of background.js: configuration defaults (`getWebhookConfig`), the flat
 * record built from a plain selection or a structured note, the request body with its fallback
 * when the template text does not parse, and the success/failure outcome of the POST.
 */
module Webhook {
  import opened Wrappers
  import opened Strings
  import opened Template

  const DefaultWebhookUrl: string :=
    "https://www.feishu.cn/flow/api/trigger-webhook/f0b419896d69c20daf099813dfcf3126"

  /** The default template text: `{idea: "{{text}}", url: "{{url}}"}` pretty-printed with two spaces. */
  const DefaultRequestBody: string := "{\n  \"idea\": \"{{text}}\",\n  \"url\": \"{{url}}\"\n}"

  /** The value `DefaultRequestBody` parses to. */
  const DefaultTemplate: Json := JObject([("idea", JString("{{text}}")), ("url", JString("{{url}}"))])

  datatype Config = Config(url: string, bodyTemplate: string)

  /** `stored || fallback` for a stored string that may be absent: an empty string counts as unset. */
  function OrDefault(stored: Option<string>, fallback: string): (r: string)
    ensures stored.Some? && stored.value != [] ==> r == stored.value
    ensures stored.None? || stored.value == [] ==> r == fallback
  {
    if stored.Some? && stored.value != [] then stored.value else fallback
  }

  /** `getWebhookConfig`, given what storage holds under `webhookUrl` and `requestBody`. */
  function GetWebhookConfig(storedUrl: Option<string>, storedBody: Option<string>): (c: Config)
    ensures c.url != [] && c.bodyTemplate != []
    ensures storedUrl.Some? && storedUrl.value != [] ==> c.url == storedUrl.value
    ensures storedUrl.None? || storedUrl.value == [] ==> c.url == DefaultWebhookUrl
    ensures storedBody.Some? && storedBody.value != [] ==> c.bodyTemplate == storedBody.value
    ensures storedBody.None? || storedBody.value == [] ==> c.bodyTemplate == DefaultRequestBody
  {
    Config(OrDefault(storedUrl, DefaultWebhookUrl), OrDefault(storedBody, DefaultRequestBody))
  }

  /**
   * What the content script sends: the selected text, or a record built from a note whose
   * fields may be missing.
   */
  datatype Idea =
    | PlainText(text: string)
    | StructuredNote(idea: Option<string>, title: Option<string>, labels: Option<string>)

  /** `field || ''` for a string field that may be missing. */
  function OrEmpty(field: Option<string>): string
  {
    if field.Some? then field.value else ""
  }

  /** The template data of `sendToWebhook`: the page url plus three fields taken from the idea. */
  function BuildTemplateData(idea: Idea, url: string): (d: TemplateData)
    ensures d.url == url
    ensures idea.PlainText? ==> d.text == idea.text && d.title == "" && d.labels == ""
    ensures idea.StructuredNote? ==>
              && (idea.idea.None? ==> d.text == "") && (idea.idea.Some? ==> d.text == idea.idea.value)
              && (idea.title.None? ==> d.title == "") && (idea.title.Some? ==> d.title == idea.title.value)
              && (idea.labels.None? ==> d.labels == "") && (idea.labels.Some? ==> d.labels == idea.labels.value)
  {
    match idea
    case PlainText(text) => TemplateData(text, "", "", url)
    case StructuredNote(i, t, l) => TemplateData(OrEmpty(i), OrEmpty(t), OrEmpty(l), url)
  }

  /** A plain selection is read exactly like a note that has only its text. */
  lemma PlainTextIsTextOnlyNote(text: string, url: string)
    ensures BuildTemplateData(PlainText(text), url) == BuildTemplateData(StructuredNote(Some(text), None, None), url)
    ensures BuildTemplateData(PlainText(text), url) == BuildTemplateData(StructuredNote(Some(text), Some(""), Some("")), url)
  {
  }

  /** The fixed body used when the template text does not parse. */
  function FallbackBody(d: TemplateData, url: string): Json
  {
    JObject([("idea", JString(d.text)), ("title", JString(d.title)), ("labels", JString(d.labels)), ("url", JString(url))])
  }

  /**
   * The body `sendToWebhook` posts. `parsedTemplate` is the result of parsing the configured
   * template text, `None` when parsing throws.
   */
  function RequestBody(parsedTemplate: Option<Json>, idea: Idea, url: string): Json
  {
    var d := BuildTemplateData(idea, url);
    match parsedTemplate
    case Some(template) => ProcessTemplate(template, d)
    case None => FallbackBody(d, url)
  }

  /** Without a parsed template the body has exactly the keys idea, title, labels and url, holding the raw fields. */
  lemma FallbackBodyFields(idea: Idea, url: string)
    ensures var body := RequestBody(None, idea, url);
            var d := BuildTemplateData(idea, url);
            && body.JObject?
            && |body.members| == 4
            && body.members[0] == ("idea", JString(d.text))
            && body.members[1] == ("title", JString(d.title))
            && body.members[2] == ("labels", JString(d.labels))
            && body.members[3] == ("url", JString(url))
  {
  }

  /** With a parsed template the body has the template's shape: same keys, same array lengths, same scalars. */
  lemma TemplateBodyKeepsShape(template: Json, idea: Idea, url: string)
    ensures SameShape(template, RequestBody(Some(template), idea, url))
  {
    ProcessTemplatePreservesShape(template, BuildTemplateData(idea, url));
  }

  /** The default template sends the selected text as `idea` and the page as `url`. */
  lemma DefaultTemplateBody(text: string, url: string)
    requires '{' !in text
    ensures RequestBody(Some(DefaultTemplate), PlainText(text), url)
            == JObject([("idea", JString(text)), ("url", JString(url))])
  {
    var d := BuildTemplateData(PlainText(text), url);
    var ideaSegs, urlSegs := [Hole(Text)], [Hole(Url)];
    assert Render(ideaSegs) == "{{text}}";
    assert Render(urlSegs) == "{{url}}";
    SubstituteTemplateText(ideaSegs, d);
    SubstituteTemplateText(urlSegs, d);
    assert Expand(ideaSegs, d) == text && Expand(urlSegs, d) == url;
    assert |"idea"| != |ProtoKey| && |"url"| != |ProtoKey|;
    TwoStringMembers("idea", Render(ideaSegs), "url", Render(urlSegs), d);
  }

  // ---------------------------------------------------------------------------------------------
  // The POST and its outcome

  /** The request handed to the HTTP client: POST with a JSON content type. */
  datatype WebhookRequest = WebhookRequest(endpoint: string, httpMethod: string, contentType: string, body: Json)

  /**
   * The request `sendToWebhook` hands to `fetch`. `parse` stands for `JSON.parse`, `None` where it
   * throws; the body is built from the configured template text.
   */
  function BuildRequest(config: Config, parse: string -> Option<Json>, idea: Idea, url: string): (r: WebhookRequest)
    ensures r.endpoint == config.url && r.httpMethod == "POST" && r.contentType == "application/json"
    ensures parse(config.bodyTemplate).None? ==> r.body == FallbackBody(BuildTemplateData(idea, url), url)
    ensures parse(config.bodyTemplate).Some? ==>
              && r.body == ProcessTemplate(parse(config.bodyTemplate).value, BuildTemplateData(idea, url))
              && SameShape(parse(config.bodyTemplate).value, r.body)
  {
    var parsed := parse(config.bodyTemplate);
    var request := WebhookRequest(config.url, "POST", "application/json", RequestBody(parsed, idea, url));
    if parsed.Some? then TemplateBodyKeepsShape(parsed.value, idea, url); request else request
  }

  /**
   * Selected text "hello" with the default configuration, given that parsing the default template
   * text yields `DefaultTemplate`: the request goes to the default endpoint with `{idea: "hello", url}`.
   */
  lemma DefaultTemplateHello(url: string, parse: string -> Option<Json>)
    requires parse(DefaultRequestBody) == Some(DefaultTemplate)
    ensures BuildRequest(GetWebhookConfig(None, None), parse, PlainText("hello"), url)
            == WebhookRequest(DefaultWebhookUrl, "POST", "application/json",
                              JObject([("idea", JString("hello")), ("url", JString(url))]))
  {
    DefaultTemplateBody("hello", url);
  }


  /** What the HTTP client reports: a response with a status code, or a network-level failure. */
  datatype Delivery =
    | Delivered(status: nat, responseText: string)
    | NetworkFailure(message: string)

  function HttpErrorPrefix(): string
  {
    "HTTP error! status: "
  }

  /** The resolved response text, or the message of the error `sendToWebhook` throws. */
  function WebhookOutcome(delivery: Delivery): (r: Result<string, string>)
    ensures r.Success? <==> delivery.Delivered? && 200 <= delivery.status <= 299
    ensures r.Success? ==> r.value == delivery.responseText
    ensures delivery.NetworkFailure? ==> r == Failure(delivery.message)
  {
    match delivery
    case Delivered(status, text) =>
      if 200 <= status <= 299 then Success(text)
      else Failure(HttpErrorPrefix() + NatToString(status))
    case NetworkFailure(message) => Failure(message)
  }

  /** A non-2xx status is reported in the error message, and can be read back from it. */
  lemma HttpErrorCarriesStatus(status: nat, text: string)
    requires !(200 <= status <= 299)
    ensures var r := WebhookOutcome(Delivered(status, text));
            && r.Failure?
            && |r.error| > |HttpErrorPrefix()|
            && r.error[..|HttpErrorPrefix()|] == HttpErrorPrefix()
            && (forall i :: |HttpErrorPrefix()| <= i < |r.error| ==> IsDigit(r.error[i]))
            && (r.error[|HttpErrorPrefix()|] == '0' ==> status == 0 && |r.error| == |HttpErrorPrefix()| + 1)
            && ParseNat(r.error[|HttpErrorPrefix()|..]) == status
  {
    var r := WebhookOutcome(Delivered(status, text));
    assert r.error[|HttpErrorPrefix()|..] == NatToString(status);
    ParseNatToString(status);
  }

  /** The message the content script sends to the background script. */
  datatype Message = Message(action: string, idea: Idea, url: string)

  /**
   * The background listener: a `sendToWebhook` message is answered with the outcome of one POST
   * (`post` stands for the HTTP client); any other action gets no answer.
   */
  function HandleMessage(msg: Message, config: Config, parse: string -> Option<Json>,
                         post: WebhookRequest -> Delivery): (reply: Option<Result<string, string>>)
    ensures reply.Some? <==> msg.action == "sendToWebhook"
    ensures reply.Some? ==> reply.value == WebhookOutcome(post(BuildRequest(config, parse, msg.idea, msg.url)))
  {
    if msg.action == "sendToWebhook" then
      Some(WebhookOutcome(post(BuildRequest(config, parse, msg.idea, msg.url))))
    else None
  }
}
