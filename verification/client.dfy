/** The single-node client's pure helpers (`AlloyClient` in alloyai_client/alloyai_client.py):
    base-URL normalisation, the request payloads of `chat`, `audio` and `image`, the
    empty-body rule of `_read_json`, the image-field rewriting of `_maybe_decode_images`
    and `_stream_events`, and the text of `AlloyClientError`. The transport itself is not
    modelled; `json.loads` and `base64.b64decode` enter as function parameters. Python's
    `None` among the optional arguments is `JNull`. */
module Client {
  import opened Wrappers
  import opened Json
  import opened Text
  import opened Sse

  // ---------------------------------------------------------------------------
  // Base URL

  datatype AlloyClient = AlloyClient(baseUrl: string, timeout: real)

  /** `base_url.rstrip("/")`: the longest prefix of the URL that does not end in `/`. */
  function NormalizeBaseUrl(url: string): (r: string)
    ensures |r| <= |url| && r == url[..|r|]
    ensures forall k :: |r| <= k < |url| ==> url[k] == '/'
    ensures |r| > 0 ==> r[|r| - 1] != '/'
  {
    RStripChar(url, '/')
  }

  /** `AlloyClient(base_url, timeout_s=...)`. */
  function NewClient(url: string, timeout: real): (c: AlloyClient)
    ensures c.timeout == timeout
    ensures |c.baseUrl| > 0 ==> c.baseUrl[|c.baseUrl| - 1] != '/'
    ensures StartsWith(url, c.baseUrl)
  {
    AlloyClient(NormalizeBaseUrl(url), timeout)
  }

  /** Stripping is idempotent: a normalised URL is its own normal form. */
  lemma NormalizeIdempotent(url: string)
    ensures NormalizeBaseUrl(NormalizeBaseUrl(url)) == NormalizeBaseUrl(url)
  {
  }

  /** Trailing slashes do not matter: adding one more changes nothing. */
  lemma {:induction false} NormalizeIgnoresTrailingSlash(url: string)
    ensures NormalizeBaseUrl(url + "/") == NormalizeBaseUrl(url)
  {
    assert (url + "/")[..|url|] == url;
  }

  /** Normalisation removes exactly the run of trailing slashes: what it drops is made of
      slashes only, and what it keeps is left exactly as it was. */
  lemma NormalizeOnlyDropsSlashes(url: string, n: nat)
    requires |url| == 0 || url[|url| - 1] != '/'
    ensures NormalizeBaseUrl(url + Slashes(n)) == url
    decreases n
  {
    if n > 0 {
      assert url + Slashes(n) == (url + Slashes(n - 1)) + "/";
      NormalizeIgnoresTrailingSlash(url + Slashes(n - 1));
      NormalizeOnlyDropsSlashes(url, n - 1);
    }
  }

  function Slashes(n: nat): (s: string)
    ensures |s| == n && forall k :: 0 <= k < n ==> s[k] == '/'
  {
    if n == 0 then "" else Slashes(n - 1) + "/"
  }

  /** `f"{self._base_url}{path}"`. */
  function RequestUrl(c: AlloyClient, path: string): (u: string)
    ensures StartsWith(u, c.baseUrl) && u[|c.baseUrl|..] == path
  {
    c.baseUrl + path
  }

  /** However many slashes the configured URL ends with, a path that begins with `/`
      meets the base at exactly one slash. */
  lemma SingleSlashAtJoin(url: string, path: string)
    requires |path| > 0 && path[0] == '/'
    ensures var c := NewClient(url, 0.0);
      var u := RequestUrl(c, path);
      u[|c.baseUrl|] == '/' && (|c.baseUrl| == 0 || u[|c.baseUrl| - 1] != '/')
  {
  }

  // ---------------------------------------------------------------------------
  // Errors

  /** `AlloyClientError(status_code, message, body)`. */
  datatype ClientError = ClientError(statusCode: int, message: string, body: Option<string>)

  /** `str(AlloyClientError(...))`: `HTTP {code}: {message}`. */
  function ErrorText(e: ClientError): (t: string)
    ensures StartsWith(t, "HTTP ")
    ensures |t| > |e.message| && t[|t| - |e.message|..] == e.message
  {
    "HTTP " + IntToString(e.statusCode) + ": " + e.message
  }

  /** The error raised for an HTTP error response: the message is the body when it is
      not empty, and the reason phrase otherwise; the body is kept either way. */
  function HttpErrorFrom(code: int, body: string, reason: string): (e: ClientError)
    ensures e.statusCode == code && e.body == Some(body)
    ensures body != "" ==> e.message == body
    ensures body == "" ==> e.message == reason
  {
    ClientError(code, if body != "" then body else reason, Some(body))
  }

  /** The index of the first occurrence of `c` in `s`. */
  function IndexOf(s: string, c: char): (r: Option<nat>)
    ensures r.Some? ==> r.value < |s| && s[r.value] == c && c !in s[..r.value]
    ensures r.None? ==> c !in s
  {
    if |s| == 0 then None
    else if s[0] == c then Some(0)
    else
      match IndexOf(s[1..], c)
      case None => None
      case Some(i) => Some(i + 1)
  }

  /** Reads a status code and message back out of an error text. */
  function ParseErrorText(t: string): Option<(int, string)> {
    if !StartsWith(t, "HTTP ") then None
    else
      var rest := t[5..];
      match IndexOf(rest, ':')
      case None => None
      case Some(i) =>
        if i + 1 < |rest| && rest[i + 1] == ' ' then
          match ParseInt(rest[..i])
          case None => None
          case Some(code) => Some((code, rest[i + 2..]))
        else None
  }

  /** The error text determines the status code and the message. */
  lemma ErrorTextRoundTrip(e: ClientError)
    ensures ParseErrorText(ErrorText(e)) == Some((e.statusCode, e.message))
  {
    var code := IntToString(e.statusCode);
    var t := ErrorText(e);
    var rest := t[5..];
    assert rest == code + ": " + e.message;
    assert rest[|code|] == ':';
    assert rest[..|code|] == code;
    var i := IndexOf(rest, ':');
    assert i == Some(|code|);
    assert rest[|code| + 2..] == e.message;
    IntRoundTrip(e.statusCode);
  }

  // ---------------------------------------------------------------------------
  // Request payloads

  /** Adds `key: v` unless `v` is `None`. */
  function PutIfPresent(o: JsonObject, key: string, v: Json): (r: JsonObject)
    ensures v == JNull ==> r == o
    ensures v != JNull ==> r == o[key := v]
  {
    if v == JNull then o else o[key := v]
  }

  /** The run of `if x is not None: payload[key] = x` steps, in order. */
  function PutAll(o: JsonObject, opt: seq<(string, Json)>): (r: JsonObject)
    ensures forall k :: k in r ==> k in o || exists i :: 0 <= i < |opt| && opt[i].0 == k
    decreases |opt|
  {
    if |opt| == 0 then o
    else
      var r := PutAll(PutIfPresent(o, opt[0].0, opt[0].1), opt[1..]);
      assert forall i :: 1 <= i < |opt| ==> opt[1..][i - 1] == opt[i];
      r
  }

  /** An optional argument's key is in the payload exactly when the argument is not
      `None`, and then holds the argument. */
  predicate OptionalKey(o: JsonObject, key: string, v: Json) {
    (key in o <==> v != JNull) && (key in o ==> o[key] == v)
  }

  /** The optional keys are new and pairwise different. */
  predicate FreshKeys(o: JsonObject, opt: seq<(string, Json)>) {
    && (forall i :: 0 <= i < |opt| ==> opt[i].0 !in o)
    && (forall i, j :: 0 <= i < j < |opt| ==> opt[i].0 != opt[j].0)
  }

  /** With fresh keys, the required fields survive and every optional key is present
      exactly when its value is not `None`. */
  lemma {:induction false} PutAllFields(o: JsonObject, opt: seq<(string, Json)>)
    requires FreshKeys(o, opt)
    ensures forall k :: k in o ==> k in PutAll(o, opt) && PutAll(o, opt)[k] == o[k]
    ensures forall i :: 0 <= i < |opt| ==> OptionalKey(PutAll(o, opt), opt[i].0, opt[i].1)
    decreases |opt|
  {
    if |opt| > 0 {
      var key := opt[0].0;
      var o' := PutIfPresent(o, key, opt[0].1);
      var tail := opt[1..];
      assert forall i :: 0 <= i < |tail| ==> tail[i] == opt[i + 1];
      assert FreshKeys(o', tail);
      PutAllFields(o', tail);
      var r := PutAll(o, opt);
      assert r == PutAll(o', tail);
      assert OptionalKey(o', key, opt[0].1);
      assert key in r <==> key in o';
      forall i | 0 <= i < |opt|
        ensures OptionalKey(r, opt[i].0, opt[i].1)
      {
        if i > 0 {
          assert opt[i] == tail[i - 1];
        }
      }
    }
  }

  datatype ChatArgs = ChatArgs(
    model: string, messages: Json, think: Json, tools: Json, options: Json,
    stream: bool, format: Json, keepAlive: Json)

  function ChatOptional(a: ChatArgs): seq<(string, Json)> {
    [("think", a.think), ("tools", a.tools), ("options", a.options), ("format", a.format), ("keep_alive", a.keepAlive)]
  }

  /** The body `chat` posts to `/chat`, or the `ValueError` message it raises first when
      streaming is asked for. */
  function ChatPayload(a: ChatArgs): (r: Result<JsonObject, string>)
    ensures r.Failure? <==> a.stream
    ensures r.Failure? ==> r.error == "Streaming chat is not supported yet"
  {
    if a.stream then Failure("Streaming chat is not supported yet")
    else Success(PutAll(map["model" := JStr(a.model), "messages" := a.messages, "stream" := JBool(a.stream)], ChatOptional(a)))
  }

  /** The chat payload holds the model, the messages and `stream: false`, each optional
      argument exactly when it is not `None`, and nothing else. */
  lemma ChatPayloadFields(a: ChatArgs)
    requires !a.stream
    ensures var p := ChatPayload(a).value;
      && "model" in p && p["model"] == JStr(a.model)
      && "messages" in p && p["messages"] == a.messages
      && "stream" in p && p["stream"] == JBool(false)
      && (forall i :: 0 <= i < |ChatOptional(a)| ==> OptionalKey(p, ChatOptional(a)[i].0, ChatOptional(a)[i].1))
      && (forall k :: k in p ==> k in {"model", "messages", "stream"} || exists i :: 0 <= i < |ChatOptional(a)| && ChatOptional(a)[i].0 == k)
  {
    var base := map["model" := JStr(a.model), "messages" := a.messages, "stream" := JBool(a.stream)];
    assert FreshKeys(base, ChatOptional(a));
    PutAllFields(base, ChatOptional(a));
  }

  datatype AudioArgs = AudioArgs(
    modelId: string, text: Json, language: Json, speaker: Json, instruct: Json,
    refAudio: Json, refText: Json, stream: bool, keepAlive: Json)

  function AudioOptional(a: AudioArgs): seq<(string, Json)> {
    [("language", a.language), ("speaker", a.speaker), ("instruct", a.instruct),
     ("ref_audio", a.refAudio), ("ref_text", a.refText), ("keep_alive", a.keepAlive)]
  }

  /** The body `audio` posts to `/audio`, or the `ValueError` message it raises first when
      streaming is asked for. */
  function AudioPayload(a: AudioArgs): (r: Result<JsonObject, string>)
    ensures r.Failure? <==> a.stream
    ensures r.Failure? ==> r.error == "Streaming audio is not supported yet"
  {
    if a.stream then Failure("Streaming audio is not supported yet")
    else Success(PutAll(map["model_id" := JStr(a.modelId), "text" := a.text, "stream" := JBool(a.stream)], AudioOptional(a)))
  }

  /** The audio payload holds the model id, the text and `stream: false`, each optional
      argument exactly when it is not `None`, and nothing else. */
  lemma AudioPayloadFields(a: AudioArgs)
    requires !a.stream
    ensures var p := AudioPayload(a).value;
      && "model_id" in p && p["model_id"] == JStr(a.modelId)
      && "text" in p && p["text"] == a.text
      && "stream" in p && p["stream"] == JBool(false)
      && (forall i :: 0 <= i < |AudioOptional(a)| ==> OptionalKey(p, AudioOptional(a)[i].0, AudioOptional(a)[i].1))
      && (forall k :: k in p ==> k in {"model_id", "text", "stream"} || exists i :: 0 <= i < |AudioOptional(a)| && AudioOptional(a)[i].0 == k)
  {
    var base := map["model_id" := JStr(a.modelId), "text" := a.text, "stream" := JBool(a.stream)];
    assert FreshKeys(base, AudioOptional(a));
    PutAllFields(base, AudioOptional(a));
  }

  /** The body `image` posts to `/image`: the three named fields, then `payload.update(params)`.
      The signature binds `model_id`, `prompt`, `stream`, `decode_images` and `timeout_s` by
      name, so the extra parameters never hold those keys. Streaming is allowed. */
  function ImagePayload(modelId: string, prompt: Json, stream: bool, params: JsonObject): (r: JsonObject)
    requires params.Keys !! {"model_id", "prompt", "stream", "decode_images", "timeout_s"}
    ensures r.Keys == {"model_id", "prompt", "stream"} + params.Keys
    ensures forall k :: k in params ==> r[k] == params[k]
    ensures r["model_id"] == JStr(modelId) && r["prompt"] == prompt && r["stream"] == JBool(stream)
  {
    map["model_id" := JStr(modelId), "prompt" := prompt, "stream" := JBool(stream)] + params
  }

  // ---------------------------------------------------------------------------
  // Responses

  /** `json.loads` applied to a response body (UTF-8 decoding included). */
  type Loader = seq<int> -> Result<Json, string>

  /** `_read_json`: an empty body reads as `{}`; any other body is handed to `loads`. */
  function ReadJson(raw: seq<int>, loads: Loader): (r: Result<Json, string>)
    ensures |raw| == 0 ==> r == Success(JObject(map[]))
    ensures |raw| > 0 ==> r == loads(raw)
  {
    if |raw| == 0 then Success(JObject(map[])) else loads(raw)
  }

  /** `base64.b64decode` of one list item: the decoded bytes, or the error it raises. */
  type Base64 = Json -> Result<Json, string>

  /** `[base64.b64decode(item) for item in items]`: stops at the first item that fails. */
  function DecodeAll(items: seq<Json>, b64: Base64): (r: Result<seq<Json>, string>)
    ensures r.Success? <==> forall i :: 0 <= i < |items| ==> b64(items[i]).Success?
    ensures r.Success? ==> |r.value| == |items| && forall i :: 0 <= i < |items| ==> r.value[i] == b64(items[i]).value
    ensures r.Failure? ==>
      exists k :: 0 <= k < |items| && b64(items[k]).Failure? && r.error == b64(items[k]).error &&
        (forall i :: 0 <= i < k ==> b64(items[i]).Success?)
  {
    if |items| == 0 then Success([])
    else
      match b64(items[0])
      case Failure(e) => Failure(e)
      case Success(v) =>
        match DecodeAll(items[1..], b64)
        case Failure(e) =>
          assert forall i :: 1 <= i < |items| ==> items[i] == items[1..][i - 1];
          Failure(e)
        case Success(vs) => Success([v] + vs)
  }

  predicate HasImageList(data: JsonObject) {
    "images" in data && data["images"].JList?
  }

  /** The image rule shared by replies and streamed payloads: an `images` list is replaced
      by its decoded items and nothing else changes; a dict without one comes back as it
      was. A failing item raises. */
  function DecodeImageField(data: JsonObject, b64: Base64): (r: Result<JsonObject, string>)
    ensures !HasImageList(data) ==> r == Success(data)
    ensures r.Success? ==> r.value.Keys == data.Keys
    ensures r.Success? ==> forall k :: k in data && k != "images" ==> r.value[k] == data[k]
    ensures HasImageList(data) ==> (r.Success? <==> DecodeAll(data["images"].items, b64).Success?)
    ensures HasImageList(data) && r.Success? ==>
      && r.value["images"].JList?
      && |r.value["images"].items| == |data["images"].items|
      && forall i :: 0 <= i < |data["images"].items| ==>
           r.value["images"].items[i] == b64(data["images"].items[i]).value
  {
    if HasImageList(data) then
      var decoded :- DecodeAll(data["images"].items, b64);
      Success(data["images" := JList(decoded)])
    else Success(data)
  }

  /** Python's name for the type of a decoded JSON value. */
  function TypeName(j: Json): string {
    match j
    case JNull => "NoneType"
    case JBool(_) => "bool"
    case JInt(_) => "int"
    case JNum(_) => "float"
    case JStr(_) => "str"
    case JBytes(_) => "bytes"
    case JList(_) => "list"
    case JObject(_) => "dict"
  }

  /** The text of the `AttributeError` that `data.get` raises on a value that is not a dict. */
  function NoGetMessage(j: Json): string {
    "'" + TypeName(j) + "' object has no attribute 'get'"
  }

  /** `_maybe_decode_images` on the reply body, which is whatever `json.loads` gave: with
      decoding off the body comes back as it was; with decoding on a dict goes through
      the image rule and any other value raises on `data.get`. */
  function MaybeDecodeImages(data: Json, decodeImages: bool, b64: Base64): (r: Result<Json, string>)
    ensures !decodeImages ==> r == Success(data)
    ensures decodeImages && !data.JObject? ==> r == Failure(NoGetMessage(data))
    ensures decodeImages && data.JObject? && !HasImageList(data.fields) ==> r == Success(data)
    ensures decodeImages && data.JObject? ==>
      (r.Success? <==> DecodeImageField(data.fields, b64).Success?)
      && (r.Success? ==> r.value == JObject(DecodeImageField(data.fields, b64).value))
    ensures decodeImages && data.JObject? && r.Success? ==> r.value.JObject? && r.value.fields.Keys == data.fields.Keys
  {
    if !decodeImages then Success(data)
    else match data
      case JObject(o) =>
        (match DecodeImageField(o, b64)
         case Success(o2) => Success(JObject(o2))
         case Failure(e) => Failure(e))
      case _ => Failure(NoGetMessage(data))
  }

  /** Decoding is the identity when it is switched off, whatever the body. */
  lemma DecodeOffIsIdentity(data: Json, b64: Base64)
    ensures MaybeDecodeImages(data, false, b64) == Success(data)
  {
  }

  /** One streamed event: a dictionary payload has its `images` list decoded. */
  function DecodeEvent(e: SseEvent, b64: Base64): (r: Result<SseEvent, string>)
    ensures r.Success? ==> r.value.name == e.name && (r.value.payload.Some? <==> e.payload.Some?)
    ensures !(e.payload.Some? && e.payload.value.JObject?) ==> r == Success(e)
    ensures e.payload.Some? && e.payload.value.JObject? ==>
      match DecodeImageField(e.payload.value.fields, b64)
      case Success(o) => r == Success(e.(payload := Some(JObject(o))))
      case Failure(err) => r == Failure(err)
  {
    match e.payload
    case Some(JObject(o)) =>
      (match DecodeImageField(o, b64)
       case Success(o2) => Success(e.(payload := Some(JObject(o2))))
       case Failure(err) => Failure(err))
    case _ => Success(e)
  }

  /** Applies `DecodeEvent` to the events in order; the first failure ends the stream, and
      `tail` is how the undecoded stream itself ended. */
  function DecodeEvents(es: seq<SseEvent>, tail: Option<string>, b64: Base64): (r: SseRun)
    ensures |r.events| <= |es|
    ensures forall i :: 0 <= i < |r.events| ==> DecodeEvent(es[i], b64) == Success(r.events[i])
    ensures |r.events| < |es| ==>
      DecodeEvent(es[|r.events|], b64).Failure? && r.failure == Some(DecodeEvent(es[|r.events|], b64).error)
    ensures |r.events| == |es| ==> r.failure == tail
  {
    if |es| == 0 then SseRun([], tail)
    else
      match DecodeEvent(es[0], b64)
      case Failure(err) => SseRun([], Some(err))
      case Success(e) =>
        var rest := DecodeEvents(es[1..], tail, b64);
        SseRun([e] + rest.events, rest.failure)
  }

  /** `_stream_events`: the events `_iter_sse` reads, with images decoded when asked. */
  function StreamEvents(lines: seq<string>, decodeImages: bool, parse: Decoder, b64: Base64): (r: SseRun)
    ensures NoneEmpty(r.events)
    ensures !decodeImages ==> r == IterSse(lines, parse)
    ensures decodeImages ==> var run := IterSse(lines, parse);
      && |r.events| <= |run.events|
      && (forall i :: 0 <= i < |r.events| ==>
            DecodeEvent(run.events[i], b64) == Success(r.events[i]) && r.events[i].name == run.events[i].name)
      && (|r.events| < |run.events| ==>
            DecodeEvent(run.events[|r.events|], b64).Failure?
            && r.failure == Some(DecodeEvent(run.events[|r.events|], b64).error))
      && (|r.events| == |run.events| ==> r.failure == run.failure)
  {
    var run := IterSse(lines, parse);
    if decodeImages then
      var d := DecodeEvents(run.events, run.failure, b64);
      assert forall i :: 0 <= i < |d.events| ==> !IsEmpty(d.events[i]) by {
        forall i | 0 <= i < |d.events| ensures !IsEmpty(d.events[i]) {
          assert !IsEmpty(run.events[i]);
        }
      }
      d
    else run
  }
}
