/** The server's model catalogue schema (alloyai_client/types.py): modalities, allocation
    states, model capabilities, one model entry and the grouped `/models` response, with the
    parse from a decoded JSON object that `AlloyModelsResponse.model_validate` performs and
    its inverse. */
module AlloyTypes {
  import opened Wrappers
  import opened Json

  datatype Modality = Text | Image | Audio | Video

  /** The enum's string value. */
  function ModalityValue(m: Modality): string {
    match m
    case Text => "text"
    case Image => "image"
    case Audio => "audio"
    case Video => "video"
  }

  /** `Modality(s)`: the member whose value is `s`, if any. */
  function ParseModality(s: string): (r: Option<Modality>)
    ensures r.Some? ==> ModalityValue(r.value) == s
    ensures forall m: Modality :: ModalityValue(m) == s ==> r == Some(m)
  {
    if s == "text" then Some(Text)
    else if s == "image" then Some(Image)
    else if s == "audio" then Some(Audio)
    else if s == "video" then Some(Video)
    else None
  }

  datatype AllocationStatus = Allocated | Queue | Deallocated

  function StatusValue(a: AllocationStatus): string {
    match a
    case Allocated => "allocated"
    case Queue => "queue"
    case Deallocated => "deallocated"
  }

  function ParseStatus(s: string): (r: Option<AllocationStatus>)
    ensures r.Some? ==> StatusValue(r.value) == s
    ensures forall a: AllocationStatus :: StatusValue(a) == s ==> r == Some(a)
  {
    if s == "allocated" then Some(Allocated)
    else if s == "queue" then Some(Queue)
    else if s == "deallocated" then Some(Deallocated)
    else None
  }

  datatype ModelCapability = ModelCapability(inputs: set<Modality>, outputs: set<Modality>, name: Option<string>)

  datatype AlloyModel = AlloyModel(
    modelId: string,
    activeRequests: int,
    isSupported: bool,
    supportsConcurrentRequests: bool,
    capabilities: seq<ModelCapability>,
    allocationStatus: AllocationStatus)

  /** The `/models` response: one list of models per output modality. */
  datatype ModelsResponse = ModelsResponse(
    image: seq<AlloyModel>,
    audio: seq<AlloyModel>,
    video: seq<AlloyModel>,
    text: seq<AlloyModel>)

  function Listing(r: ModelsResponse, m: Modality): seq<AlloyModel> {
    match m
    case Image => r.image
    case Audio => r.audio
    case Video => r.video
    case Text => r.text
  }

  const EmptyResponse := ModelsResponse([], [], [], [])

  // ---------------------------------------------------------------------------
  // Parsing a decoded JSON object into the schema (no type coercion).

  function ParseModalities(items: seq<Json>): (r: Result<set<Modality>, string>)
    ensures r.Success? ==> forall m :: m in r.value <==> JStr(ModalityValue(m)) in items
  {
    if |items| == 0 then Success({})
    else
      var head :- ParseModalityItem(items[0]);
      var rest :- ParseModalities(items[1..]);
      assert items == [items[0]] + items[1..];
      Success({head} + rest)
  }

  function ParseModalityItem(j: Json): (r: Result<Modality, string>)
    ensures r.Success? ==> j == JStr(ModalityValue(r.value))
  {
    if j.JStr? then
      match ParseModality(j.s)
      case Some(m) => Success(m)
      case None => Failure("invalid modality")
    else Failure("modality must be a string")
  }

  /** An `Optional[str]` field: absent or null is `None`. */
  function ParseOptionalString(o: JsonObject, key: string): (r: Result<Option<string>, string>)
    ensures key !in o ==> r == Success(None)
    ensures key in o && o[key] == JNull ==> r == Success(None)
    ensures key in o && o[key].JStr? ==> r == Success(Some(o[key].s))
    ensures r.Failure? <==> key in o && o[key] != JNull && !o[key].JStr?
  {
    if key !in o || o[key] == JNull then Success(None)
    else if o[key].JStr? then Success(Some(o[key].s))
    else Failure(key + " must be a string")
  }

  /** A `Set[Modality]` field. */
  function ParseModalitySet(o: JsonObject, key: string): Result<set<Modality>, string> {
    if key in o && o[key].JList? then ParseModalities(o[key].items)
    else Failure(key + " must be a list")
  }

  function ParseCapability(o: JsonObject): Result<ModelCapability, string> {
    var inputs :- ParseModalitySet(o, "inputs");
    var outputs :- ParseModalitySet(o, "outputs");
    var name :- ParseOptionalString(o, "name");
    Success(ModelCapability(inputs, outputs, name))
  }

  function ParseCapabilities(items: seq<Json>): (r: Result<seq<ModelCapability>, string>)
    ensures r.Success? <==> forall k :: 0 <= k < |items| ==> items[k].JObject? && ParseCapability(items[k].fields).Success?
    ensures r.Success? ==>
      && |r.value| == |items|
      && forall k :: 0 <= k < |items| ==> items[k].JObject? && ParseCapability(items[k].fields) == Success(r.value[k])
  {
    if |items| == 0 then Success([])
    else
      var head :- if items[0].JObject? then ParseCapability(items[0].fields) else Failure("capability must be an object");
      var rest :- ParseCapabilities(items[1..]);
      Success([head] + rest)
  }

  /** `AlloyModel.model_validate(o)`: every field is required except
      `supports_concurrent_requests`, which is false when the key is absent. */
  function ParseAlloyModel(o: JsonObject): (r: Result<AlloyModel, string>)
    ensures r.Success? ==> "model_id" in o && o["model_id"] == JStr(r.value.modelId)
    ensures r.Success? ==> "active_requests" in o && o["active_requests"] == JInt(r.value.activeRequests)
    ensures r.Success? ==> "is_supported" in o && o["is_supported"] == JBool(r.value.isSupported)
    ensures r.Success? ==> r.value.supportsConcurrentRequests == ("supports_concurrent_requests" in o && o["supports_concurrent_requests"] == JBool(true))
    ensures r.Success? ==> "allocation_status" in o && o["allocation_status"] == JStr(StatusValue(r.value.allocationStatus))
    ensures r.Success? ==>
      && "capabilities" in o && o["capabilities"].JList?
      && ParseCapabilities(o["capabilities"].items) == Success(r.value.capabilities)
  {
    if "model_id" !in o || !o["model_id"].JStr? then Failure("model_id must be a string")
    else if "active_requests" !in o || !o["active_requests"].JInt? then Failure("active_requests must be an integer")
    else if "is_supported" !in o || !o["is_supported"].JBool? then Failure("is_supported must be a boolean")
    else if "supports_concurrent_requests" in o && !o["supports_concurrent_requests"].JBool? then
      Failure("supports_concurrent_requests must be a boolean")
    else if "capabilities" !in o || !o["capabilities"].JList? then Failure("capabilities must be a list")
    else if "allocation_status" !in o || !o["allocation_status"].JStr? then Failure("allocation_status must be a string")
    else
      var caps :- ParseCapabilities(o["capabilities"].items);
      var status :- match ParseStatus(o["allocation_status"].s)
                    case Some(a) => Success(a)
                    case None => Failure("invalid allocation_status");
      var concurrent := if "supports_concurrent_requests" in o then o["supports_concurrent_requests"].b else false;
      Success(AlloyModel(o["model_id"].s, o["active_requests"].i, o["is_supported"].b, concurrent, caps, status))
  }

  function ParseModelList(items: seq<Json>): (r: Result<seq<AlloyModel>, string>)
    ensures r.Success? <==> forall k :: 0 <= k < |items| ==> items[k].JObject? && ParseAlloyModel(items[k].fields).Success?
    ensures r.Success? ==>
      && |r.value| == |items|
      && forall k :: 0 <= k < |items| ==> items[k].JObject? && ParseAlloyModel(items[k].fields) == Success(r.value[k])
  {
    if |items| == 0 then Success([])
    else
      var head :- if items[0].JObject? then ParseAlloyModel(items[0].fields) else Failure("model must be an object");
      var rest :- ParseModelList(items[1..]);
      Success([head] + rest)
  }

  /** One of the four listings; a missing key is an empty list (`default_factory=list`). */
  function ParseListing(o: JsonObject, key: string): (r: Result<seq<AlloyModel>, string>)
    ensures key !in o ==> r == Success([])
    ensures key in o ==> (r.Success? <==> o[key].JList? && ParseModelList(o[key].items).Success?)
    ensures key in o && r.Success? ==>
      && |r.value| == |o[key].items|
      && forall k :: 0 <= k < |o[key].items| ==> ParseAlloyModel(o[key].items[k].fields) == Success(r.value[k])
  {
    if key !in o then Success([])
    else if o[key].JList? then ParseModelList(o[key].items)
    else Failure(key + " must be a list")
  }

  /** `AlloyModelsResponse.model_validate(o)`. */
  function ParseModelsResponse(o: JsonObject): (r: Result<ModelsResponse, string>)
    ensures r.Success? ==> forall m: Modality :: ModalityValue(m) !in o ==> Listing(r.value, m) == []
    ensures r.Success? <==> forall m: Modality :: ParseListing(o, ModalityValue(m)).Success?
    ensures r.Success? ==> forall m: Modality :: ParseListing(o, ModalityValue(m)) == Success(Listing(r.value, m))
  {
    assert ModalityValue(Image) == "image" && ModalityValue(Audio) == "audio";
    assert ModalityValue(Video) == "video" && ModalityValue(Text) == "text";
    var image := ParseListing(o, "image");
    var audio := ParseListing(o, "audio");
    var video := ParseListing(o, "video");
    var text := ParseListing(o, "text");
    if image.Failure? then Failure(image.error)
    else if audio.Failure? then Failure(audio.error)
    else if video.Failure? then Failure(video.error)
    else if text.Failure? then Failure(text.error)
    else Success(ModelsResponse(image.value, audio.value, video.value, text.value))
  }

  // ---------------------------------------------------------------------------
  // Serialising back (`model_dump`), the partner of the parse.

  const AllModalities: seq<Modality> := [Text, Image, Audio, Video]

  /** The members of `s` among `order`, as JSON strings, in that order. */
  function ModalitiesIn(order: seq<Modality>, s: set<Modality>): (r: seq<Json>)
    ensures forall m: Modality :: JStr(ModalityValue(m)) in r <==> m in order && m in s
  {
    if |order| == 0 then []
    else
      var rest := ModalitiesIn(order[1..], s);
      assert forall m :: m in order <==> m == order[0] || m in order[1..];
      if order[0] in s then [JStr(ModalityValue(order[0]))] + rest else rest
  }

  function ModalitiesToJson(s: set<Modality>): seq<Json> {
    ModalitiesIn(AllModalities, s)
  }

  function CapabilityToJson(c: ModelCapability): JsonObject {
    map["inputs" := JList(ModalitiesToJson(c.inputs)),
        "outputs" := JList(ModalitiesToJson(c.outputs)),
        "name" := match c.name case Some(n) => JStr(n) case None => JNull]
  }

  function CapabilitiesToJson(cs: seq<ModelCapability>): seq<Json> {
    if |cs| == 0 then [] else [JObject(CapabilityToJson(cs[0]))] + CapabilitiesToJson(cs[1..])
  }

  function AlloyModelToJson(m: AlloyModel): JsonObject {
    map["model_id" := JStr(m.modelId),
        "active_requests" := JInt(m.activeRequests),
        "is_supported" := JBool(m.isSupported),
        "supports_concurrent_requests" := JBool(m.supportsConcurrentRequests),
        "capabilities" := JList(CapabilitiesToJson(m.capabilities)),
        "allocation_status" := JStr(StatusValue(m.allocationStatus))]
  }

  lemma ModalitiesRoundTrip(s: set<Modality>)
    ensures ParseModalities(ModalitiesToJson(s)) == Success(s)
  {
    var items := ModalitiesToJson(s);
    ModalitiesInParse(AllModalities, s);
    ParseModalitiesSucceeds(items);
    var r := ParseModalities(items);
    forall m: Modality ensures m in r.value <==> m in s {
      assert m in AllModalities by {
        match m
        case Text => assert AllModalities[0] == m;
        case Image => assert AllModalities[1] == m;
        case Audio => assert AllModalities[2] == m;
        case Video => assert AllModalities[3] == m;
      }
    }
    assert r.value == s;
  }

  lemma {:induction false} ModalitiesInParse(order: seq<Modality>, s: set<Modality>)
    ensures forall k :: 0 <= k < |ModalitiesIn(order, s)| ==> ParseModalityItem(ModalitiesIn(order, s)[k]).Success?
  {
    if |order| > 0 {
      ModalitiesInParse(order[1..], s);
    }
  }

  lemma {:induction false} ParseModalitiesSucceeds(items: seq<Json>)
    requires forall k :: 0 <= k < |items| ==> ParseModalityItem(items[k]).Success?
    ensures ParseModalities(items).Success?
  {
    if |items| > 0 {
      ParseModalitiesSucceeds(items[1..]);
    }
  }

  lemma CapabilityModalities(c: ModelCapability)
    ensures ParseModalitySet(CapabilityToJson(c), "inputs") == Success(c.inputs)
    ensures ParseModalitySet(CapabilityToJson(c), "outputs") == Success(c.outputs)
  {
    ModalitiesRoundTrip(c.inputs);
    ModalitiesRoundTrip(c.outputs);
    var o := CapabilityToJson(c);
    assert o["inputs"] == JList(ModalitiesToJson(c.inputs));
    assert o["outputs"] == JList(ModalitiesToJson(c.outputs));
  }

  lemma CapabilityRoundTrip(c: ModelCapability)
    ensures ParseCapability(CapabilityToJson(c)) == Success(c)
  {
    CapabilityModalities(c);
    var o := CapabilityToJson(c);
    assert ParseOptionalString(o, "name") == Success(c.name);
  }

  lemma {:induction false} CapabilitiesRoundTrip(cs: seq<ModelCapability>)
    ensures ParseCapabilities(CapabilitiesToJson(cs)) == Success(cs)
  {
    if |cs| > 0 {
      var c := cs[0];
      CapabilityRoundTrip(c);
      CapabilitiesRoundTrip(cs[1..]);
      var js := CapabilitiesToJson(cs);
      assert js[0] == JObject(CapabilityToJson(c));
      assert js[1..] == CapabilitiesToJson(cs[1..]);
      assert [c] + cs[1..] == cs;
    }
  }

  /** A payload whose fields have the right JSON types, with capabilities and status that
      parse, gives the model those fields describe; without the concurrency key the model
      is not concurrent. */
  lemma ParseAlloyModelFields(o: JsonObject, m: AlloyModel)
    requires "model_id" in o && o["model_id"] == JStr(m.modelId)
    requires "active_requests" in o && o["active_requests"] == JInt(m.activeRequests)
    requires "is_supported" in o && o["is_supported"] == JBool(m.isSupported)
    requires if "supports_concurrent_requests" in o then o["supports_concurrent_requests"] == JBool(m.supportsConcurrentRequests)
             else !m.supportsConcurrentRequests
    requires "capabilities" in o && o["capabilities"] == JList(CapabilitiesToJson(m.capabilities))
    requires "allocation_status" in o && o["allocation_status"] == JStr(StatusValue(m.allocationStatus))
    ensures ParseAlloyModel(o) == Success(m)
  {
    CapabilitiesRoundTrip(m.capabilities);
    assert ParseStatus(StatusValue(m.allocationStatus)) == Some(m.allocationStatus);
  }

  /** Parsing what `model_dump` produced gives the same model back. */
  lemma AlloyModelRoundTrip(m: AlloyModel)
    ensures ParseAlloyModel(AlloyModelToJson(m)) == Success(m)
  {
    ParseAlloyModelFields(AlloyModelToJson(m), m);
  }

  /** `model_dump()` without the `supports_concurrent_requests` key. */
  function WithoutConcurrency(m: AlloyModel): JsonObject {
    map["model_id" := JStr(m.modelId),
        "active_requests" := JInt(m.activeRequests),
        "is_supported" := JBool(m.isSupported),
        "capabilities" := JList(CapabilitiesToJson(m.capabilities)),
        "allocation_status" := JStr(StatusValue(m.allocationStatus))]
  }

  lemma WithoutConcurrencyIsRemoval(m: AlloyModel)
    ensures AlloyModelToJson(m) - {"supports_concurrent_requests"} == WithoutConcurrency(m)
  {
  }

  /** The schema default: a payload without `supports_concurrent_requests` but with every
      other field parses, and gives a model that does not accept concurrent requests. */
  lemma ConcurrencyDefaultsToFalse(m: AlloyModel)
    ensures ParseAlloyModel(AlloyModelToJson(m) - {"supports_concurrent_requests"}) == Success(m.(supportsConcurrentRequests := false))
  {
    WithoutConcurrencyIsRemoval(m);
    ParseAlloyModelFields(WithoutConcurrency(m), m.(supportsConcurrentRequests := false));
  }
}
