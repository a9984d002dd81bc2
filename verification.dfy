/** core/verification.py: asking the language model to fact-check a draft
    and reading its reply. The chat call, the prompts file, `str.format` and
    `json.loads` are parameters: the reply, the loaded prompts, the
    formatter and the parser are given. */
module Verification {
  import opened Wrappers
  import opened Text
  import opened News

  const NoClientMessage := "OpenAI API Key no configurada."
  const NoJsonMessage := "La IA no devolvió un formato JSON válido."
  const DefaultModel := "gpt-4o-search-preview"
  const SourcesKey := "fuentes_consultadas"

  /** A JSON value as `json.loads` returns it. */
  datatype Json = JNull | JBool(b: bool) | JNum(n: int) | JStr(s: string)
                | JArr(items: seq<Json>) | JObj(fields: map<string, Json>)

  /** Python truthiness of a decoded JSON value. */
  predicate Truthy(v: Json) {
    match v
    case JNull => false
    case JBool(b) => b
    case JNum(n) => n != 0
    case JStr(s) => s != []
    case JArr(items) => items != []
    case JObj(fields) => fields != map[]
  }

  /** One citation attached to the reply; `url` is absent when the
      annotation object has no `url` attribute. */
  datatype Annotation = Annotation(url: Option<string>)

  /** The first choice's message: its text content (`None` allowed) and its
      annotations (an absent list reads as an empty one). */
  datatype ChatMessage = ChatMessage(content: Option<string>, annotations: seq<Annotation>)

  /** The URLs of the annotations that have one, in order. */
  function AnnotationUrls(anns: seq<Annotation>): (urls: seq<string>)
    ensures |urls| <= |anns|
  {
    if anns == [] then []
    else (if anns[0].url.Some? then [anns[0].url.value] else []) + AnnotationUrls(anns[1..])
  }

  /** Every collected URL belongs to some annotation. */
  lemma {:induction false} AnnotationUrlsFromAnnotations(anns: seq<Annotation>, u: string)
    requires u in AnnotationUrls(anns)
    ensures exists k :: 0 <= k < |anns| && anns[k].url == Some(u)
  {
    if anns[0].url == Some(u) {
      assert anns[0].url == Some(u);
    } else {
      AnnotationUrlsFromAnnotations(anns[1..], u);
      var k :| 0 <= k < |anns[1..]| && anns[1..][k].url == Some(u);
      assert anns[k + 1].url == Some(u);
    }
  }

  /** Every annotation with a URL contributes it. */
  lemma {:induction false} AnnotationUrlsComplete(anns: seq<Annotation>, k: nat)
    requires k < |anns| && anns[k].url.Some?
    ensures anns[k].url.value in AnnotationUrls(anns)
  {
    if k > 0 {
      AnnotationUrlsComplete(anns[1..], k - 1);
    }
  }

  lemma {:induction false} AnnotationUrlsSnoc(anns: seq<Annotation>, last: Annotation)
    ensures AnnotationUrls(anns + [last]) ==
            AnnotationUrls(anns) + (if last.url.Some? then [last.url.value] else [])
  {
    if anns == [] {
      assert [] + [last] == [last];
    } else {
      assert (anns + [last])[1..] == anns[1..] + [last];
      AnnotationUrlsSnoc(anns[1..], last);
    }
  }

  /** The loop that collects the annotation URLs. */
  method CollectAnnotationUrls(anns: seq<Annotation>) returns (urls: seq<string>)
    ensures urls == AnnotationUrls(anns)
  {
    urls := [];
    for i := 0 to |anns|
      invariant urls == AnnotationUrls(anns[..i])
    {
      if anns[i].url.Some? {
        urls := urls + [anns[i].url.value];
      }
      AnnotationUrlsSnoc(anns[..i], anns[i]);
      assert anns[..i + 1] == anns[..i] + [anns[i]];
    }
    assert anns[..|anns|] == anns;
  }

  /** Python's `raw[start:end]` for `0 <= start`, `0 <= end <= |raw|`:
      empty when `end` is not after `start`. */
  function Slice(raw: string, start: nat, end: nat): string
    requires start <= |raw| && end <= |raw|
  {
    if start < end then raw[start..end] else []
  }

  /** The JSON text cut out of the reply: from the first `{` to the last `}`,
      both included; `None` when either brace is missing. When the last `}`
      comes before the first `{` the cut is empty. */
  function ExtractJsonText(raw: string): (r: Option<string>)
    ensures r.None? <==> '{' !in raw || '}' !in raw
    ensures r.Some? && Find(raw, '{') <= RFind(raw, '}') ==>
      var i, j := Find(raw, '{'), RFind(raw, '}');
      r.value == raw[i..j + 1] && r.value[0] == '{' && r.value[|r.value| - 1] == '}'
      && '{' !in raw[..i] && '}' !in raw[j + 1..]
    ensures r.Some? && Find(raw, '{') > RFind(raw, '}') ==> r.value == []
  {
    var start := Find(raw, '{');
    var end := RFind(raw, '}') + 1;
    if start == -1 || end == 0 then None
    else Some(Slice(raw, start, end))
  }

  /** The list of annotation URLs as a JSON array of strings. */
  function UrlsJson(urls: seq<string>): (r: seq<Json>)
    ensures |r| == |urls|
    ensures forall k :: 0 <= k < |urls| ==> r[k] == JStr(urls[k])
  {
    if urls == [] then [] else [JStr(urls[0])] + UrlsJson(urls[1..])
  }

  /** `if annotations and not result.get("fuentes_consultadas"):
      result["fuentes_consultadas"] = annotations`. The lookup raises when
      the decoded JSON is not an object. */
  function MergeSources(result: Json, urls: seq<string>): (r: Result<Json>)
    ensures urls == [] ==> r == Ok(result)
    ensures urls != [] && !result.JObj? ==> r.Err?
    ensures urls != [] && result.JObj? && SourcesKey in result.fields && Truthy(result.fields[SourcesKey])
            ==> r == Ok(result)
    ensures urls != [] && result.JObj? && !(SourcesKey in result.fields && Truthy(result.fields[SourcesKey]))
            ==> r.Ok? && r.value.JObj? && SourcesKey in r.value.fields
                && r.value.fields[SourcesKey] == JArr(UrlsJson(urls))
    ensures r.Ok? && result.JObj? ==>
      && r.value.JObj?
      && r.value.fields.Keys == result.fields.Keys + (if urls == [] then {} else {SourcesKey})
      && (forall key :: key in result.fields && key != SourcesKey ==> r.value.fields[key] == result.fields[key])
  {
    if urls == [] then Ok(result)
    else match result
      case JObj(fields) =>
        if SourcesKey in fields && Truthy(fields[SourcesKey]) then Ok(result)
        else Ok(JObj(fields[SourcesKey := JArr(UrlsJson(urls))]))
      case _ => Err("'" + JsonTypeName(result) + "' object has no attribute 'get'")
  }

  function JsonTypeName(v: Json): string {
    match v
    case JNull => "NoneType"
    case JBool(_) => "bool"
    case JNum(_) => "int"
    case JStr(_) => "str"
    case JArr(_) => "list"
    case JObj(_) => "dict"
  }

  /** Merging the sources a second time changes nothing. */
  lemma MergeSourcesIdempotent(result: Json, urls: seq<string>)
    requires MergeSources(result, urls).Ok?
    ensures MergeSources(MergeSources(result, urls).value, urls) == MergeSources(result, urls)
  {
    if urls != [] {
      var r := MergeSources(result, urls).value;
      assert Truthy(r.fields[SourcesKey]);
    }
  }

  /** A non-empty source list the model already returned is kept. */
  lemma ModelSourcesKept(fields: map<string, Json>, urls: seq<string>)
    requires SourcesKey in fields && Truthy(fields[SourcesKey])
    ensures MergeSources(JObj(fields), urls) == Ok(JObj(fields))
  {
  }

  /** The `verificacion` entry of the prompts file. */
  type PromptConfig = map<string, string>

  /** The values `user_prompt_template.format(...)` receives. */
  datatype PromptFields = PromptFields(titulo: string, entradilla: string, contenido: string, etiquetas: string)

  /** The chat request: the model, the system prompt and the user prompt. */
  datatype ChatRequest = ChatRequest(model: string, systemPrompt: string, userPrompt: string)

  /** The draft's fields as the prompt receives them: the tags joined with
      `", "`. */
  function PromptFieldsOf(news: Article): (f: PromptFields)
    ensures f.titulo == news.titulo && f.entradilla == news.entradilla && f.contenido == news.contenido
    ensures f.etiquetas == JoinTags(news.etiquetas)
  {
    PromptFields(news.titulo, news.entradilla, news.contenido, JoinTags(news.etiquetas))
  }

  /** Reading the tags back from the prompt gives the draft's tags whenever
      they are well formed. */
  lemma PromptTagsRecoverable(news: Article)
    requires forall k :: 0 <= k < |news.etiquetas| ==> WellFormedTag(news.etiquetas[k])
    ensures ParseTags(PromptFieldsOf(news).etiquetas) == news.etiquetas
  {
    ParseTagsOfJoined(news.etiquetas);
  }

  function KeyErrorMessage(key: string): string {
    "'" + key + "'"
  }

  /** The request built from the loaded prompts: `_load_prompts()["verificacion"]`,
      its `modelo` (with a default), `system_prompt` and `user_prompt_template`;
      a missing key raises `KeyError`. `format` is `str.format` on the
      template and the draft's fields: it fails on a placeholder the fields
      do not name or on a malformed brace, and that error is raised. */
  function BuildRequest(prompts: map<string, PromptConfig>, news: Article,
                        format: (string, PromptFields) -> Result<string>): (r: Result<ChatRequest>)
    ensures r.Ok? <==> "verificacion" in prompts && "system_prompt" in prompts["verificacion"]
                       && "user_prompt_template" in prompts["verificacion"]
                       && format(prompts["verificacion"]["user_prompt_template"], PromptFieldsOf(news)).Ok?
    ensures "verificacion" !in prompts ==> r == Err(KeyErrorMessage("verificacion"))
    ensures "verificacion" in prompts && "system_prompt" in prompts["verificacion"]
            && "user_prompt_template" in prompts["verificacion"] ==>
      var formatted := format(prompts["verificacion"]["user_prompt_template"], PromptFieldsOf(news));
      formatted.Err? ==> r == Err(formatted.error)
    ensures r.Ok? ==> var cfg := prompts["verificacion"];
      r.value.model == (if "modelo" in cfg then cfg["modelo"] else DefaultModel)
      && r.value.systemPrompt == cfg["system_prompt"]
      && r.value.userPrompt == format(cfg["user_prompt_template"], PromptFieldsOf(news)).value
  {
    if "verificacion" !in prompts then Err(KeyErrorMessage("verificacion"))
    else
      var cfg := prompts["verificacion"];
      var modelo := if "modelo" in cfg then cfg["modelo"] else DefaultModel;
      if "system_prompt" !in cfg then Err(KeyErrorMessage("system_prompt"))
      else if "user_prompt_template" !in cfg then Err(KeyErrorMessage("user_prompt_template"))
      else match format(cfg["user_prompt_template"], PromptFieldsOf(news))
        case Err(e) => Err(e)
        case Ok(userPrompt) => Ok(ChatRequest(modelo, cfg["system_prompt"], userPrompt))
  }

  /** `verify(news_data)`: without a client it raises before anything else;
      otherwise it loads the prompts, sends one chat request, cuts the JSON
      out of the reply, decodes it with `parse` and fills in the sources
      from the annotations when the model gave none. `reply` is the answer
      to the request; `prompts` is the loaded prompts file or its error;
      `format` is `str.format` as in `BuildRequest`. Nothing is sent when
      building the request raises. */
  method Verify(hasClient: bool, prompts: Result<map<string, PromptConfig>>, news: Article,
                format: (string, PromptFields) -> Result<string>,
                reply: ChatMessage, parse: string -> Result<Json>)
    returns (request: Option<ChatRequest>, result: Result<Json>)
    ensures !hasClient ==> request.None? && result == Err(NoClientMessage)
    ensures hasClient && prompts.Err? ==> request.None? && result == Err(prompts.error)
    ensures hasClient && prompts.Ok? && BuildRequest(prompts.value, news, format).Err? ==>
      request.None? && result == Err(BuildRequest(prompts.value, news, format).error)
    ensures request.Some? <==> hasClient && prompts.Ok? && BuildRequest(prompts.value, news, format).Ok?
    ensures request.Some? ==> request.value == BuildRequest(prompts.value, news, format).value
    ensures request.Some? ==>
      var text := ExtractJsonText(reply.content.GetOr([]));
      result == (if text.None? then Err(NoJsonMessage)
                 else match parse(text.value)
                   case Err(e) => Err(e)
                   case Ok(decoded) => MergeSources(decoded, AnnotationUrls(reply.annotations)))
  {
    if !hasClient {
      return None, Err(NoClientMessage);
    }
    if prompts.Err? {
      return None, Err(prompts.error);
    }
    var built := BuildRequest(prompts.value, news, format);
    if built.Err? {
      return None, Err(built.error);
    }
    request := Some(built.value);
    var rawText := reply.content.GetOr([]);
    var annotations := CollectAnnotationUrls(reply.annotations);
    var text := ExtractJsonText(rawText);
    if text.None? {
      return request, Err(NoJsonMessage);
    }
    var decoded := parse(text.value);
    if decoded.Err? {
      return request, Err(decoded.error);
    }
    result := MergeSources(decoded.value, annotations);
  }
}
