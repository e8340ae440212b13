# alloyai_client in Dafny

A model of the Python package `alloyai_client`, a client for Alloy inference servers,
with proofs about the model. It covers three parts:

- `AlloyClient`, the single-node HTTP client. The model covers its pure parts:
  - base-URL normalisation and request URLs;
  - the request bodies of `chat`, `audio` and `image`;
  - the empty-body rule of `_read_json`;
  - image decoding in replies and in streamed events;
  - the server-sent-events reader `_iter_sse`;
  - the text of `AlloyClientError`.
- `AlloyNodeManager`, which spreads requests over several Alloy nodes:
  - construction and its first refresh;
  - `refresh_nodes`;
  - the score of a node for a model;
  - the three query modes and the choice of node;
  - `_dispatch` with its in-flight counters and stream release;
  - `_index_models` and `_combined_models_response`, behind `models()`.
- The schema types: dict-style access on `SubscriptableBaseModel`, and the catalogue types
  `Modality`, `AllocationStatus`, `ModelCapability`, `AlloyModel` and
  `AlloyModelsResponse`, with their parse from JSON and its inverse.

Modules, one per file:

| module | file | contents |
|---|---|---|
| `Wrappers` | wrappers.dfy | `Option` and `Result` |
| `Json` | json.dfy | the JSON-like values the client sends and receives |
| `Text` | text.dfy | `str.strip`, `str.rstrip(c)` and decimal rendering |
| `StringOrder` | string_order.dfy | Python's string order, and sorting a set of ids |
| `Schema` | schema.dfy | `SubscriptableBaseModel`: `in`, `[]`, `[]=`, `get` |
| `AlloyTypes` | alloy_types.dfy | the catalogue types, with parse and serialise |
| `Catalog` | catalog.dfy | `_index_models`, per-node totals, `_combined_models_response` |
| `Scoring` | scoring.dfy | node state, `_node_score`, the in-flight counters |
| `Ranking` | ranking.dfy | the stable `sorted`, the controlled-querying prefix, `min` |
| `Sse` | sse.dfy | `_iter_sse` and a block-by-block reference reading of a stream |
| `Client` | client.dfy | the `AlloyClient` helpers |
| `NodeManager` | node_manager.dfy | `AlloyNodeManager` |

Everything outside the process becomes a parameter:

- each node's `/models` outcome (`Fetch`, by node index);
- the outcome of the client call that `_dispatch` makes (`invoke`);
- the clock (`now`);
- `json.loads` (`parse`, `loads`) and `base64.b64decode` (`b64`).

Floats are modelled as reals, and `float("inf")` is its own score value, `Infinite`.

`AlloyNodeManager` routes each call to a single node:

- exactly one node is chosen per call;
- a failure of that node's call is re-raised as it is;
- `models()` merges whatever every node last reported, and a node that fails the refresh
  keeps its previous table.

## Model

| member | source | states |
|---|---|---|
| Text.LStrip | alloyai_client/alloyai_client.py:226 | the result is a suffix of the input that starts with a non-space, and only whitespace was dropped |
| Text.RStrip | alloyai_client/alloyai_client.py:226 | the result is a prefix of the input that ends with a non-space, and only whitespace was dropped |
| Text.StripSpec | alloyai_client/alloyai_client.py:226 | `strip()` keeps a middle slice with only whitespace around it, with no whitespace at either end; stripping twice changes nothing |
| Text.RStripChar | alloyai_client/alloyai_client.py:37 | `rstrip(c)` keeps a prefix that does not end in `c`, and drops only copies of `c` |
| Text.NatToString | alloyai_client/node_manager.py:78 | decimal digits, non-empty, with no leading zero |
| Text.IntToString | alloyai_client/alloyai_client.py:25 | a non-empty rendering that contains no colon |
| Text.IntRoundTrip | alloyai_client/alloyai_client.py:25 | reading the decimal rendering back gives the same integer |
| StringOrder.LessTransitive | alloyai_client/node_manager.py:385 | Python's string `<` is transitive |
| StringOrder.LessTotal | alloyai_client/node_manager.py:385 | of two different strings, one is less than the other |
| StringOrder.Least | alloyai_client/node_manager.py:385 | a non-empty set of ids has a smallest member, and it is unique |
| StringOrder.SortedKeys | alloyai_client/node_manager.py:384-385 | `sorted(ids)` lists each id of the set exactly once, in strictly increasing order |
| StringOrder.StrictlySortedDistinct | alloyai_client/node_manager.py:384-385 | a strictly sorted list never repeats an id |
| Schema.Contains | alloyai_client/types.py:53-89 | `key in obj` holds for a field set explicitly; for an unset declared field it holds iff the default is not `None`; it never holds for an undeclared name |
| Schema.GetItem | alloyai_client/types.py:24-37 | `obj[key]` succeeds exactly when `key in obj`, with the attribute; otherwise it raises `KeyError(key)` |
| Schema.SetItem | alloyai_client/types.py:39-51 | assignment succeeds only for a declared field; afterwards the key is present and reads back the value, and every other key is unchanged |
| Schema.Get | alloyai_client/types.py:91-105 | `get` returns the attribute whenever it exists, even when `key in obj` is false, and the default otherwise; it agrees with `obj[key]` when the key is present |
| Schema.Construct | alloyai_client/types.py:83-89 | construction fails exactly when a required field is missing, and then names exactly those fields; the fields set are the declared keys given; given values and defaults are stored |
| Schema.ContainsAfterConstruct | alloyai_client/types.py:83-89 | after construction, a declared key is present iff it was given or its default is not `None` |
| Schema.MessageExamples | alloyai_client/types.py:25-105 | the `Message` doctests: `role` present, unset `content` absent, a `KeyError` for an undeclared key, `get` defaults, and `tool_calls` present after assigning `None` |
| Schema.ToolExample | alloyai_client/types.py:149-150 | `Tool()` has `type` present through its non-`None` default |
| Schema.AlloyModelConcurrencyDefault | alloyai_client/types.py:249 | an `AlloyModel` built without `supports_concurrent_requests` reads that field as false |
| AlloyTypes.ParseModality | alloyai_client/types.py:226-230 | `Modality(s)` is the member whose value is `s`, and exists whenever one does |
| AlloyTypes.ParseStatus | alloyai_client/types.py:233-236 | `AllocationStatus(s)` is the member whose value is `s`, and exists whenever one does |
| AlloyTypes.ParseModalities | alloyai_client/types.py:240-241 | a parsed modality set holds exactly the modalities whose values are in the list |
| AlloyTypes.ParseOptionalString | alloyai_client/types.py:242 | an absent or `null` `name` parses as `None`, a string as that string, and any other value fails |
| AlloyTypes.ParseCapabilities | alloyai_client/types.py:250 | the list parses iff every item is an object that parses as a capability; the result holds, in order, the parse of each item |
| AlloyTypes.ParseAlloyModel | alloyai_client/types.py:245-251 | a successful parse reads each field from its key, the capabilities being the parse of the `capabilities` list; `supports_concurrent_requests` is true only when the key is present and true |
| AlloyTypes.ParseAlloyModelFields | alloyai_client/types.py:245-251 | a payload whose fields have the right JSON types, with parsable capabilities and status, parses to the model they describe, and to a non-concurrent one when the concurrency key is absent |
| AlloyTypes.ParseModelList | alloyai_client/types.py:255-258 | the list parses iff every item is an object that parses as a model; the result holds, in order, the parse of each item |
| AlloyTypes.ParseListing | alloyai_client/types.py:255-258 | a missing listing key parses as an empty list; a present one parses iff it is a list of parsable models, giving each item's parse in order |
| AlloyTypes.ParseModelsResponse | alloyai_client/types.py:254-258 | the response parses iff each of the four listings does, and each listing is its key's parse; an absent key gives an empty listing |
| AlloyTypes.ModalitiesRoundTrip | alloyai_client/types.py:240-241 | parsing the dumped modality set gives the set back |
| AlloyTypes.CapabilityRoundTrip | alloyai_client/types.py:239-242 | parsing a dumped capability gives it back |
| AlloyTypes.CapabilitiesRoundTrip | alloyai_client/types.py:250 | parsing a dumped capability list gives it back |
| AlloyTypes.AlloyModelRoundTrip | alloyai_client/node_manager.py:345 | `AlloyModel.model_validate(model.model_dump())` is an exact copy |
| AlloyTypes.ConcurrencyDefaultsToFalse | tests/test_types_models.py:9-33 | a model's dumped payload with `supports_concurrent_requests` removed parses, giving the same model except that it is not concurrent |
| Catalog.FirstCapabilities | alloyai_client/node_manager.py:363-364 | the result is empty iff every entry's list is, and otherwise is the list of the first entry that has one |
| Catalog.FirstFilled | alloyai_client/node_manager.py:413-420 | the indexed entry of an id is its first listing with the capabilities of the first listing that has some |
| Catalog.MergeStatus | alloyai_client/node_manager.py:355-362 | the merged status is the higher of the two in the order deallocated < queue < allocated, and is one of them |
| Catalog.MergeStatusCommutes | alloyai_client/node_manager.py:355-362 | the status merge does not depend on which node came first |
| Catalog.MergeAll | alloyai_client/node_manager.py:344-364 | one id's summary keeps the first entry's id and sums all active requests; its status ranks at least as high as every entry's; its capabilities are the first non-empty list |
| Catalog.MergeAllFlags | alloyai_client/node_manager.py:349-362 | the summary is supported, or concurrent, iff some entry is; its status is some entry's status |
| Catalog.Entries | alloyai_client/node_manager.py:405-412 | the visited entries are exactly the models of the four listings, each tagged with its listing |
| Catalog.IndexEntriesReference | alloyai_client/node_manager.py:411-420 | an id has a row iff it is listed; the row is its first listing with capabilities filled in; its categories are exactly the listings it appears in |
| Catalog.IndexModels | alloyai_client/node_manager.py:399-422 | the model table and the category table have the same ids, and each row is filed under its own id |
| Catalog.IndexModelsKeys | alloyai_client/node_manager.py:411-414 | an id is indexed iff some listing contains a model with that id |
| Catalog.IndexModelsCategories | alloyai_client/node_manager.py:415 | an indexed id is filed under a modality iff that modality's listing contains it |
| Catalog.SumByRemove | alloyai_client/node_manager.py:221-226 | a sum over a node's table does not depend on the order in which entries are visited |
| Catalog.SupportedCountIsCardinality | alloyai_client/node_manager.py:221-223 | the supported-model count is the number of supported ids |
| Catalog.ActiveTotalUpdate | alloyai_client/node_manager.py:224-226 | replacing one entry changes the remote active total by the difference in active requests |
| Catalog.SummaryStep | alloyai_client/node_manager.py:340-346 | after a node's turn, the summary's ids are the earlier ids plus the node's |
| Catalog.SummariesReference | alloyai_client/node_manager.py:339-364 | an id has a summary iff some node lists it, and the summary merges its entries in node order |
| Catalog.SummariesWellKeyed | alloyai_client/node_manager.py:344-346 | every summary is filed under its own id |
| Catalog.TwoNodeSummary | tests/test_node_manager.py:218-252 | the aggregation scenario of the tests: 1 + 2 active requests give 3, allocated wins, and concurrency is kept |
| Catalog.CategoriesReference | alloyai_client/node_manager.py:339-343 | an id's gathered categories are the union of what every node that lists it recorded |
| Catalog.Outputs | alloyai_client/node_manager.py:374-379 | the fallback categories are exactly the outputs of the model's capabilities |
| Catalog.GroupIds | alloyai_client/node_manager.py:372-385 | a group's ids are exactly the summaries whose effective categories contain the modality, in strictly increasing order |
| Catalog.GroupContents | alloyai_client/node_manager.py:372-385 | a group holds exactly those summaries, sorted by model id |
| Catalog.CombinedGroups | alloyai_client/node_manager.py:334-391 | each listing of the combined response holds exactly the summaries that belong to that modality, sorted and without repeats |
| Scoring.NodeScore | alloyai_client/node_manager.py:289-315 | the score is infinite iff the node lacks the model or has it unsupported; otherwise it is the sum of the load, status and node terms |
| Scoring.UnsupportedScoresHighest | alloyai_client/node_manager.py:290-292 | a node without support scores above every node with it |
| Scoring.MoreLoadScoresHigher | alloyai_client/node_manager.py:294-299 | more remote active requests for the model give a strictly higher score |
| Scoring.NonConcurrentScoresHigher | alloyai_client/node_manager.py:300-301 | with some load, losing concurrency raises the score |
| Scoring.StatusPenaltyOrder | alloyai_client/node_manager.py:303-307 | the penalties order the states allocated < deallocated < queue |
| Scoring.WeightLowersScore | alloyai_client/node_manager.py:311 | a larger positive weight lowers the score; non-positive weights all count as zero |
| Scoring.LowerLoadWins | tests/test_node_manager.py:101-117 | of two nodes alike but for 4 versus 1 active requests, the second scores lower |
| Scoring.NonConcurrentPenaltyOutweighsLoad | tests/test_node_manager.py:120-150 | one request on a non-concurrent model scores above two requests on a concurrent one |
| Scoring.IncrementInflight | alloyai_client/node_manager.py:317-322 | the total and the model's count go up by one, other models are unchanged, and valid counters stay valid |
| Scoring.DecrementInflight | alloyai_client/node_manager.py:324-332 | the total drops by one but not below zero; the model's entry goes once it would reach zero; other models are unchanged |
| Scoring.IncrementThenDecrement | alloyai_client/node_manager.py:317-332 | with valid counters, increment then decrement restores the node exactly |
| Ranking.SortByScore | alloyai_client/node_manager.py:278 | the sorted candidates are a permutation of the candidates |
| Ranking.SortByScoreRanked | alloyai_client/node_manager.py:278 | the sort is stable: ordered by score, and equal scores by position |
| Ranking.ToQuery | alloyai_client/node_manager.py:279 | the prefix has `min(limit, len(candidates))` entries |
| Ranking.ToQueryLowest | alloyai_client/node_manager.py:278-279 | every candidate in the prefix comes before every candidate left out |
| Ranking.ToQueryFromCandidates | alloyai_client/node_manager.py:279 | the prefix holds only candidates, each at most as often as it occurs among them |
| Ranking.ArgMin | alloyai_client/node_manager.py:286 | `min` returns a candidate that scores no higher than any other, and strictly lower than every candidate before it |
| Ranking.ArgMinStrictlyBeforeEarlier | alloyai_client/node_manager.py:286 | every earlier candidate scores strictly higher than the chosen one |
| Ranking.ArgMinFirstOfTies | alloyai_client/node_manager.py:286 | among equal lowest scores, the first candidate is chosen |
| Sse.ClassifyTrimmed | alloyai_client/alloyai_client.py:227-238 | an empty line is blank; a `data:` line carries its stripped value, or is skipped when that is empty; otherwise an `event:` line names the stripped rest; any other non-empty line is ignored |
| Sse.Classify | alloyai_client/alloyai_client.py:226-238 | the same, for the stripped raw line |
| Sse.ClassifyCanonical | alloyai_client/alloyai_client.py:226-238 | every line classifies to a canonical kind: data non-empty and trimmed, a name trimmed |
| Sse.ClassifyRender | alloyai_client/alloyai_client.py:226-238 | the plainest line written for a canonical kind classifies back to that kind |
| Sse.RenderOfClassifyClassifiesAlike | alloyai_client/alloyai_client.py:226-238 | any line and the rendering of its kind classify alike |
| Sse.IterFrom | alloyai_client/alloyai_client.py:224-240 | no event without `event` or `payload` is yielded, and at most one is yielded per blank line plus the final flush |
| Sse.IterSse | alloyai_client/alloyai_client.py:223-240 | the same bounds for the whole stream |
| Sse.IterMatchesReference | alloyai_client/alloyai_client.py:224-240 | the generator equals the block reading, for every pending event: each blank-line block gives its last event name and last decoded data, and a decode failure ends the stream after the closed blocks |
| Sse.IterSseIsBlockReading | alloyai_client/alloyai_client.py:223-240 | `_iter_sse` is the block reading of the classified lines |
| Sse.ClassifyDataLine | alloyai_client/alloyai_client.py:232-236 | `data: d` carries `d` |
| Sse.ClassifyEventLine | alloyai_client/alloyai_client.py:237-238 | `event: n` names the event `n` |
| Sse.ClassifyBlank | alloyai_client/alloyai_client.py:227 | an empty line is blank |
| Sse.ClassifyEmptyData | alloyai_client/alloyai_client.py:233-235 | `data:` with nothing after it is skipped |
| Sse.ClassifyComment | alloyai_client/alloyai_client.py:232-238 | a comment line is ignored |
| Sse.ExampleEvents | alloyai_client/alloyai_client.py:224-240 | an event name, two data lines, an empty data line and a comment before a blank line give one event, with the name and the last data |
| Client.NormalizeBaseUrl | alloyai_client/alloyai_client.py:37 | the stored URL is the input with its run of trailing slashes removed, and does not end in `/` |
| Client.NewClient | alloyai_client/alloyai_client.py:31-38 | the client keeps a prefix of the URL that does not end in `/`, and the timeout |
| Client.NormalizeIdempotent | alloyai_client/alloyai_client.py:37 | normalising twice is normalising once |
| Client.NormalizeIgnoresTrailingSlash | alloyai_client/alloyai_client.py:37 | one more trailing slash changes nothing |
| Client.NormalizeOnlyDropsSlashes | alloyai_client/alloyai_client.py:37 | a URL not ending in `/`, followed by any number of slashes, normalises back to itself |
| Client.RequestUrl | alloyai_client/alloyai_client.py:158 | the request URL is the base followed by exactly the path |
| Client.SingleSlashAtJoin | alloyai_client/alloyai_client.py:158 | base and path meet at exactly one slash, however many the configured URL had |
| Client.ErrorText | alloyai_client/alloyai_client.py:23-25 | the text starts with `HTTP ` and ends with the message |
| Client.HttpErrorFrom | alloyai_client/alloyai_client.py:168-171 | the message is the body when it is non-empty and the reason otherwise; the code and body are kept |
| Client.ErrorTextRoundTrip | alloyai_client/alloyai_client.py:25 | the status code and the message can be read back from the error text |
| Client.PutAll | alloyai_client/alloyai_client.py:86-95 | the optional-argument steps add no keys besides the optional ones |
| Client.PutAllFields | alloyai_client/alloyai_client.py:86-95 | with fresh keys, the required fields survive, and each optional key is present iff its argument is not `None`, holding that argument |
| Client.ChatPayload | alloyai_client/alloyai_client.py:78-95 | chat fails iff streaming is asked for, with the source's message |
| Client.ChatPayloadFields | alloyai_client/alloyai_client.py:81-95 | the chat body holds model, messages and `stream: false`, each optional argument iff it is not `None`, and nothing else |
| Client.AudioPayload | alloyai_client/alloyai_client.py:115-134 | audio fails iff streaming is asked for, with the source's message |
| Client.AudioPayloadFields | alloyai_client/alloyai_client.py:118-134 | the audio body holds model_id, text and `stream: false`, each optional argument iff it is not `None`, and nothing else |
| Client.ImagePayload | alloyai_client/alloyai_client.py:40-55 | the image body holds the model id, the prompt and the stream flag, plus the extra parameters, which never repeat a named parameter |
| Client.ReadJson | alloyai_client/alloyai_client.py:189-193 | an empty body reads as `{}`; any other body is decoded |
| Client.DecodeAll | alloyai_client/alloyai_client.py:201 | decoding succeeds iff every item decodes, item by item; otherwise it raises the first item's error |
| Client.DecodeImageField | alloyai_client/alloyai_client.py:198-202 | a dict without an `images` list comes back as is; otherwise only `images` changes, to the decoded items, and the dict decodes iff every item does |
| Client.MaybeDecodeImages | alloyai_client/alloyai_client.py:195-202 | with decoding off any reply body is returned as is; with it on, a dict goes through the image rule and any other JSON value raises the `AttributeError` of `data.get` |
| Client.DecodeOffIsIdentity | alloyai_client/alloyai_client.py:196-197 | turning decoding off returns the data unchanged |
| Client.DecodeEvent | alloyai_client/alloyai_client.py:211-218 | only a dict payload is rewritten, by the same image rule; the event name is kept |
| Client.DecodeEvents | alloyai_client/alloyai_client.py:209-219 | the yielded events are the decoded prefix, and the first event that fails ends the stream with its error |
| Client.StreamEvents | alloyai_client/alloyai_client.py:204-221 | no streamed event is empty; with decoding off the events are `_iter_sse`'s; with it on, they are `_iter_sse`'s events in order with names kept and images decoded, up to the first event that fails to decode, whose error ends the stream |
| NodeManager.ParseQueryMode | alloyai_client/node_manager.py:26-29 | a mode string is accepted exactly when it is one of the three values, giving that mode |
| NodeManager.NodeName | alloyai_client/node_manager.py:75-83 | a node is named by its configured non-empty name, otherwise `node-<index>`; the name is never empty |
| NodeManager.InitialNode | alloyai_client/node_manager.py:75-90 | a new node state has the normalised URL, weight 1.0 for a bare URL, empty tables, no requests in flight and no error |
| NodeManager.InitialNodeValid | alloyai_client/node_manager.py:84-90 | a new node state satisfies the manager's invariant |
| NodeManager.RefreshNode | alloyai_client/node_manager.py:208-228 | a failed call records only its error; a successful one installs the indexed tables, their supported-model count and active total, the time and no error; identity and counters are kept, and so is validity |
| NodeManager.RefreshErrors | alloyai_client/node_manager.py:203-216 | a selected node's name is an error key iff its call failed, with the exception text; every key names a selected node |
| NodeManager.Refresh | alloyai_client/node_manager.py:189-229 | unselected nodes are unchanged, selected nodes take their call's outcome, and the errors are as above |
| NodeManager.ErrorsRecorded | alloyai_client/node_manager.py:212-216 | each reported error is also recorded on the node that raised it |
| NodeManager.RefreshPreserves | alloyai_client/node_manager.py:217-228 | a refresh keeps every node's name, weight and counters, and keeps valid nodes valid |
| NodeManager.NoErrorsAllSucceeded | alloyai_client/node_manager.py:208-216 | an empty error dict means every selected call succeeded |
| NodeManager.ShadowedNeverRefreshed | alloyai_client/node_manager.py:197-199 | of several nodes with one name, only the last is ever refreshed |
| NodeManager.RefreshNamed | alloyai_client/node_manager.py:198-199 | with distinct names, a non-empty name list refreshes exactly the named nodes, and errors are keyed by listed names |
| NodeManager.InitialNodes | alloyai_client/node_manager.py:75-90 | one initial state per configured node, in order |
| NodeManager.Start | alloyai_client/node_manager.py:92-97 | construction fails iff `strict_init` is set and the first refresh reported errors, which it then carries, or no node lists a model after that refresh; on success the nodes are the refreshed ones, all valid and named |
| NodeManager.Create | alloyai_client/node_manager.py:64-97 | no nodes, a non-positive limit or an unknown mode raise their `ValueError`s in that order; otherwise construction proceeds |
| NodeManager.Candidates | alloyai_client/node_manager.py:266 | the candidates are exactly the supporting nodes, in node order |
| NodeManager.ModeTargets | alloyai_client/node_manager.py:275-280 | local-only refreshes nothing; query-every-time names every candidate; controlled querying names the first `min(limit, len(candidates))` candidates of the stable sort by score |
| NodeManager.ControlledTargetsLowest | alloyai_client/node_manager.py:277-280 | with distinct names, every node controlled querying targets supports the model and comes before every supporting node it leaves out, by score and then position |
| NodeManager.Choose | alloyai_client/node_manager.py:282-287 | none iff no node supports the model; otherwise a supporting node with a score no higher than any node's, and strictly lower than every earlier node's |
| NodeManager.Select | alloyai_client/node_manager.py:264-287 | selection chooses over the states its refreshes leave, and keeps every node's name, weight, counters and validity |
| NodeManager.AfterFallback | alloyai_client/node_manager.py:266-271 | the mode refresh starts from the states as they were when some node supports the model, and from a refresh of every node otherwise |
| NodeManager.SelectRefreshesTargets | alloyai_client/node_manager.py:275-280 | past the fallback, the query modes refresh exactly the nodes the name-keyed refresh selects for the mode's target names, and leave the others as they were |
| NodeManager.EverytimeRefreshesCandidates | alloyai_client/node_manager.py:275-276 | with distinct names, query-every-time refreshes exactly the nodes that support the model |
| NodeManager.ControlledSelectsRanked | alloyai_client/node_manager.py:277-280 | with distinct names and a positive limit, the refresh for the controlled targets selects exactly the nodes that `ToQuery` ranks first |
| NodeManager.ControlledRefreshesLowest | alloyai_client/node_manager.py:277-280 | with distinct names, controlled querying refreshes exactly the `min(max, n)` lowest-ranked supporting nodes and no other node |
| NodeManager.LocalOnlyNoRefresh | alloyai_client/node_manager.py:264-287 | in local-only mode, with some supporting node, nothing is refreshed and a node is chosen |
| NodeManager.LocalOnlyRefreshesOnlyOnFallback | alloyai_client/node_manager.py:264-287 | in local-only mode the only refresh is the fallback one: selection chooses over the states the fallback left, whether or not it refreshed |
| NodeManager.UnsupportedRefreshesAll | alloyai_client/node_manager.py:268-273 | with no supporting node, every node is refreshed, and if none supports the model afterwards, selection fails |
| NodeManager.Invoke | alloyai_client/node_manager.py:238-250 | no choice gives the no-candidate error; a raised call is re-raised; a returned value is returned; a stream is kept open iff streaming was asked for and an iterator came back |
| NodeManager.Dispatch | alloyai_client/node_manager.py:231-262 | a dispatch fails with the no-candidate error iff selection chose nothing; otherwise its outcome is what the chosen node's call did; the counters end as they began, once any stream has finished; valid states stay valid |
| NodeManager.FinishStream | alloyai_client/node_manager.py:252-262 | closing a stream runs `_decrement_inflight` on its node: the total drops by one but not below zero, the model's entry drops by one or is removed at one or less, other models' counts and the node's other fields stay, and other nodes and the manager's settings are untouched |
| NodeManager.InvokeBalanced | alloyai_client/node_manager.py:238-262 | every invoked request is uncounted exactly once: the counters are restored at once, or when the stream finishes |
| NodeManager.InflightKeepsNodeValid | alloyai_client/node_manager.py:317-332 | counting a request in or out keeps a node valid |
| NodeManager.InvokeKeepsValid | alloyai_client/node_manager.py:238-262 | invoking on the chosen node, and finishing its stream, keep the manager valid |
| NodeManager.Models | alloyai_client/node_manager.py:181-187 | `models()` leaves the states of a refresh of every node, and keeps the counters and validity |
| NodeManager.ModelsGroups | alloyai_client/node_manager.py:181-187 | each listing of `models()` holds exactly the merged summaries of its modality, sorted by id without repeats |

## Left out

- Transport: `_post`, `_get`, request headers, `json.dumps` and `urllib`. `AlloyClient.models` is modelled only as the parse of a decoded body.
- Timeouts: `timeout_s` is carried through nowhere, because it only reaches the network.
- Threads and the lock: `refresh_nodes` calls nodes concurrently. The model applies each outcome independently of completion order, which is what the source computes.
- Python dict iteration order: every result here is keyed by id or name, or sorted by model id.
- Laziness: generators are modelled by their complete output. A consumer that stops early is modelled only through `NodeManager.FinishStream`, the `finally` clause of `_wrap_stream_result`. That clause runs only once the stream has been iterated at least once. A stream that is never iterated never enters its `try` block, so its request stays counted in flight; the model assumes every stream is finished.
- Closing responses.
- UTF-8 decoding with errors ignored: lines and bodies arrive already decoded, or are passed to the `json.loads` parameter.
- pydantic's type coercion: the parse accepts exactly the JSON types of each field.
- The response classes of types.py beyond the catalogue (`ChatResponse`, `EmbedResponse`, the fields of `Message` and `Tool`): these are plain data. Only their field-default tables enter the model, for the dict-access examples.
- Scoring.NodeScore: uses exact real arithmetic. Float rounding could order nearly equal scores differently.
- Scoring.StatusPenalty: the fallback penalty of 1.5 is unreachable, because the enum has three members.
- NodeManager.Refresh: one clock reading stands for the `time.time()` of each node.
- NodeManager.Start: `InitFailed` carries the error dict, not the joined message text, whose order depends on thread completion.
- NodeManager.Create: the message for an unknown mode quotes it as `'…'`. That is Python's `repr` only for modes without quotes, backslashes or non-printable characters; `repr` switches to double quotes or escapes for the rest. The mode is given as its string value; passing an enum member is the same thing. `max_nodes_to_query` is stored as a natural number, which it is once the positivity check has passed.
- NodeManager.Select: the two refreshes are given separate `Fetch` outcomes, since a node can answer differently each time.
- `alloy_client/types.py`: a second copy of the same dict-access logic, with an image field. It is modelled once, through `Schema`.
- `alloyai_client/client_protocol.py` and `alloyai_client/__init__.py`: method signatures and re-exports only. `invoke` in `NodeManager.Dispatch` stands for the per-node client.
