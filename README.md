# OBA_sparql query manager, modelled in Dafny

OBA_sparql is the engine behind the REST servers that OBA generates from an
ontology. Its `QueryManager` turns a REST call into a SPARQL call against a
triple store and turns the answer back into JSON. In detail:

- a GET picks a query template by class and kind (`get_all`, `get_all_user`,
  `get_one`, `get_one_user` or a custom query), fills it in and rewrites its
  pagination, then frames the JSON-LD answer with the class's context;
- a PUT deletes a resource's outgoing triples, then inserts its new
  description;
- a DELETE removes outgoing and then incoming triples;
- a POST adds the class to the body's `type` and gives the body a fresh
  identifier. It then walks the body, giving every nested dict without an
  `id` an identifier and inserting it, and finally inserts the body.

The model follows the modules below.

- `Json`: JSON values, with Python dicts as insertion-ordered field lists.
- `Strings`: `str.split`, `str.join`, `str.replace` and `str(int)`.
- `Static`: the shared constants.
- `Utils`: `generate_uri`, `convert_snake`, and the fresh-identifier source.
- `Templates`: the template table built by `__init__` and `read_template`.
- `Routing`: how a GET is routed, the request arguments, the offset and the
  pagination rewrite.
- `Contexts`: the JSON-LD context operations.
  - `remove_jsonld_key` and `convert_snake_dict`;
  - the normalisation inside `frame_results`;
  - `overwrite_endpoint_context` and `merge`.
- `Framing`: `frame_results`.
- `Traversal`: `traverse_obj`, `process_dictionary` and
  `get_all_complex_objects`, computed on values.
- `Remote`: the store and the RDF libraries, as function-valued fields, and
  the replies.
- `Reading`: `get_resource` down to `dispatch_sparql_query`, as a function.
- `Writes`: the insert and delete queries, `prepare_jsonld`,
  `insert_all_resources`, and `put_resource`, `delete_resource` and
  `post_resource` as functions.
- `Engine`: the class `QueryManager`, with the fields the source updates in
  place:
  - the shared template table and the classes bound to it;
  - the context, which `frame_results` normalises in place;
  - the class context and the override context;
  - the log of calls sent to the store;
  - the number of identifiers drawn so far.

  Its methods run the loops of the source. Each one is proved equal to the
  specification function of the module above.

Two behaviours of the code are modelled as written, although they may surprise a reader:

- Every class directory is bound to the same template dict as `_default_`
  (`obasparql/query_manager.py:65-73`). A template in one class's directory
  therefore replaces the template of that kind for every class, and for the
  defaults too; it is not a per-class override. `Templates.OverrideLeaksToOtherClass`
  exhibits this.
- The override context is read from the same file name as the class context
  (`obasparql/static.py:35-36`), so it is always the class context as read,
  `type` and `id` included: the constructor takes no separate override
  document.

## Model

| member | source | states |
|---|---|---|
| Utils.GenerateUri | obasparql/utils.py:8-18 | the graph name starts with the base and what follows it is exactly the user name |
| Utils.FreshIdInjective | obasparql/utils.py:21-22 | two different draws of the identifier source never give the same identifier |
| Utils.SubCapitalWordIsExpand | obasparql/utils.py:26 | the first substitution only inserts underscores, at the gaps its left-to-right scan finds |
| Utils.SubLowerUpperOfExpand | obasparql/utils.py:27 | the second substitution on an underscored text adds an underscore between every lower-case letter or digit and a following capital |
| Utils.ConvertSnakeShape | obasparql/utils.py:25-27 | `convert_snake` is the lower-cased name with underscores inserted at a set of gaps |
| Utils.SnakeGapsPlacement | obasparql/utils.py:25-27 | an underscore only ever goes before a capital, and always goes between a lower-case letter or digit and a capital |
| Utils.ConvertSnakeNoUpper | obasparql/utils.py:25-27 | the result has no upper-case ASCII letter |
| Utils.ConvertSnakeFixes | obasparql/utils.py:25-27 | a name with no capital comes back unchanged |
| Utils.ConvertSnakeIdempotent | obasparql/utils.py:25-27 | converting twice is converting once |
| Utils.ExampleFirstSubstitution | obasparql/utils.py:26 | `hasContactPerson` becomes `has_ContactPerson` after the first substitution |
| Utils.ExampleSecondSubstitution | obasparql/utils.py:27 | `has_ContactPerson` becomes `has_Contact_Person` after the second substitution |
| Utils.ConvertSnakeExample | obasparql/utils.py:25-27 | `hasContactPerson` converts to `has_contact_person` |
| Strings.JoinSplit | obasparql/query_manager.py:473-475 | joining the pieces of a split with the same separator gives the text back |
| Strings.PiecesAvoidSeparator | obasparql/query_manager.py:572-575 | no piece of a split holds the separator |
| Strings.ReplaceIsJoinOfSplit | obasparql/query_manager.py:572-575 | `str.replace` is the split on the old text joined with the new text |
| Strings.ReplaceAbsent | obasparql/query_manager.py:572-575 | replacing a text that does not occur changes nothing |
| Json.Put | obasparql/query_manager.py:494 | after `d[k] = v` the key holds `v` and every other key keeps its value; a new key goes last, an existing one keeps its place |
| Json.PutSame | obasparql/query_manager.py:494 | assigning a key the value it already holds changes nothing |
| Json.Pop | obasparql/query_manager.py:21-25 | `pop` keeps every other key's value, and a missing key leaves the dict as it is |
| Json.PutDistinct | obasparql/query_manager.py:494-496 | assigning keeps a dict's keys distinct |
| Json.PopDistinct | obasparql/query_manager.py:21-25 | on a dict, `pop` leaves no entry for the key and keeps the other keys distinct |
| Json.PutAllLookup | obasparql/query_manager.py:492-496 | after a run of assignments a key holds the last value written to it, else its old value |
| Contexts.RemoveJsonldKey | obasparql/query_manager.py:21-25 | the key is gone, every other key keeps its value, and a missing key leaves the context as it was |
| Contexts.AliasWritesOf | obasparql/query_manager.py:492-496 | each term is written under its name, then under its snake-case name exactly when that differs |
| Contexts.SnakeDictStep | obasparql/query_manager.py:492-496 | one more iteration of `convert_snake_dict`'s loop writes the term, then its alias if it differs |
| Contexts.SnakeDictLookup | obasparql/query_manager.py:479-496 | a key is in the new context iff it was already there or some term or alias writes it; its value is the last one written |
| Contexts.AliasSharesValue | obasparql/query_manager.py:492-496 | a term not overwritten later is readable under its name and its snake-case alias, with the same value |
| Contexts.SnakeDictExample | obasparql/query_manager.py:492-496 | `hasContactPerson` is readable as `has_contact_person` too |
| Contexts.NormaliseEntry | obasparql/query_manager.py:354-358 | a dict definition gets `@container: @set` and keeps `@type` only when it is `@id`; other keys and non-dict values are untouched |
| Contexts.NormaliseEntryIdempotent | obasparql/query_manager.py:354-358 | normalising a definition twice is normalising it once |
| Contexts.NormaliseEntries | obasparql/query_manager.py:354-358 | every term keeps its place and name, and its definition is normalised |
| Contexts.WithAliasesWellFormed | obasparql/query_manager.py:352-353 | adding the `type` and `id` aliases keeps the context a dict |
| Contexts.NormaliseContextShape | obasparql/query_manager.py:352-358 | after the normalisation, `type` and `id` alias `@type` and `@id`, exactly the old terms plus these two are present, and every definition is normalised |
| Contexts.NormaliseContextIdempotent | obasparql/query_manager.py:352-358 | normalising the context a second time changes nothing |
| Contexts.OverwriteStep | obasparql/query_manager.py:328-330 | one more override term replaces the term of its name when the context has it, and is skipped otherwise |
| Contexts.OverwriteLookup | obasparql/query_manager.py:327-330 | the keys are those of the endpoint context; a key takes the last override value for it, else keeps its value |
| Contexts.OverwriteIdempotent | obasparql/query_manager.py:327-330 | overriding twice with the same terms is overriding once |
| Contexts.MergeLookup | obasparql/query_manager.py:595-597 | in a merge a key takes its value from the second dict when that has it, else from the first |
| Framing.Extract | obasparql/query_manager.py:365-368 | the result is the framed `@graph` when present, else the empty list |
| Framing.FrameResultsContext | obasparql/query_manager.py:332-358 | an unparsable answer gives `[]` and leaves the context; once the answer is parsed, measured and expanded the context is normalised; otherwise it is one of the two |
| Framing.FrameResultsItems | obasparql/query_manager.py:332-368 | a result came from a parsed, measurable, expandable answer that does not make the clean-up raise; the frame carries the normalised context and the `@id` exactly when an IRI was given, and the result is the framed `@graph` |
| Framing.GraphListWithIdRaises | obasparql/query_manager.py:359-360 | an answer whose `@graph` is a list holding `"id"` makes the clean-up raise |
| Framing.GraphDictIsSafe | obasparql/query_manager.py:359-360 | an answer whose `@graph` is a dict never makes the clean-up raise |
| Templates.Stem | obasparql/query_manager.py:528-529 | the stem of a query file followed by `.rq` is the file name |
| Templates.TemplatesOfLookup | obasparql/query_manager.py:524-533 | a kind is in the table iff some `.rq` file defines it, and it holds the text of the last such file |
| Templates.ReadTemplate | obasparql/query_manager.py:524-533 | the loop over the listing builds exactly that table |
| Templates.DirsSnoc | obasparql/query_manager.py:68-73 | one more class directory writes its templates over the shared table and binds its name |
| Templates.SharedTableLookup | obasparql/query_manager.py:59-73 | a kind is in the shared table iff it is a default or some directory defines it; the last defining directory wins, else the default stays |
| Templates.Resolve | obasparql/query_manager.py:312 | a template is found iff the class is bound and the kind is in the table, and it is the table's entry |
| Templates.SameTemplatesForEveryClass | obasparql/query_manager.py:65-73 | every bound class resolves every kind to the same template |
| Templates.OverrideLeaksToOtherClass | obasparql/query_manager.py:68-73 | a `get_all.rq` in directory `A` is what class `B` gets for `get_all` |
| Routing.SelectRoute | obasparql/query_manager.py:121-159 | the one-resource path is taken iff an id is given; a custom name is the kind; otherwise the kind is a user kind iff a user name is given, and a get-one kind iff an id is given |
| Routing.GenerateGraph | obasparql/query_manager.py:499-500 | the graph starts with the base and is followed by the user name |
| Routing.GraphInjective | obasparql/query_manager.py:499-500 | different user names get different graphs |
| Routing.MissingUserGraph | obasparql/query_manager.py:549-553 | a request without a user name reads the graph of the user called `None` |
| Routing.BuildInstanceUri | obasparql/query_manager.py:503-506 | a URL is kept; anything else is put after the IRI prefix |
| Routing.InstanceUriInjective | obasparql/query_manager.py:503-506 | two identifiers that are not URLs never share an instance IRI |
| Routing.RequestArgs | obasparql/query_manager.py:161-191 | `page` and `per_page` are copied; `resource` is present iff an id is given and is its instance IRI, `type` iff not; `g` is the user's graph |
| Routing.WithOffset | obasparql/query_manager.py:313-314 | an offset is added iff page and per_page are both given, as `(page - 1) * per_page`, and nothing else changes |
| Routing.OffsetIsWholePages | obasparql/query_manager.py:313-314 | the offset is a whole number of pages that gives the page back, and is not negative from page one on |
| Routing.PaginateNeedsBothKeys | obasparql/query_manager.py:571-575 | without both `per_page` and `offset` the query text is left as it is |
| Routing.PaginateRewritesMarkers | obasparql/query_manager.py:571-575 | every `LIMIT 100` becomes the page size and then every `OFFSET 0` becomes the offset, and no marker survives between the pieces |
| Routing.PaginateWithoutMarkers | obasparql/query_manager.py:571-575 | a query with neither marker passes through unchanged |
| Routing.FrameId | obasparql/query_manager.py:323-325 | the frame asks for an `@id` iff there is a `resource` argument and framing by id is not skipped, and it is that resource |
| Routing.FrameIdByRoute | obasparql/query_manager.py:323-325 | a get-all request is framed by type only; a get-one request is framed by its instance IRI unless `skip_id_framing` is true |
| Traversal.GateIsShortcut | obasparql/query_manager.py:395-397 | a dict with no complex objects is left as it is and nothing is inserted for its values |
| Traversal.ProcessDictionaryShape | obasparql/query_manager.py:394-400 | the result is the dict grown (`Grown`: keys in place, each value grown, primitives kept, an `id` appended iff missing), and every dict inside ends up with an `id` |
| Traversal.ProcessDictionaryLog | obasparql/query_manager.py:394-400 | as many inserts as dicts missing an `id`, numbered by draw and complete; a dict without an `id` is itself the last insert (which dicts: `ProcessDictionaryCollects`) |
| Traversal.WalkValuesShape | obasparql/query_manager.py:395-397 | walking a dict's values keeps its keys in place, grows each value and identifies every dict in them |
| Traversal.WalkValuesLog | obasparql/query_manager.py:395-397 | walking a dict's values makes as many inserts as dicts without an `id` in them, numbered by draw (which dicts: `WalkValuesCollects`) |
| Traversal.TraverseFieldsShape | obasparql/query_manager.py:384-392 | the walked entries keep their keys and primitive values, their values are grown and identified |
| Traversal.TraverseFieldsLog | obasparql/query_manager.py:384-392 | the entries make as many inserts as missing `id`s, in draw order (which dicts: `TraverseFieldsCollects`) |
| Traversal.VisitValueShape | obasparql/query_manager.py:386-392 | a visited value is grown and identified; a primitive is kept |
| Traversal.VisitValueLog | obasparql/query_manager.py:386-392 | a visited value makes as many inserts as missing `id`s, in draw order (which dicts: `VisitValueCollects`) |
| Traversal.TraverseListShape | obasparql/query_manager.py:387-390 | every walked list element is grown from the original element and identified; the list keeps its length |
| Traversal.TraverseListLog | obasparql/query_manager.py:387-390 | a list makes as many inserts as missing `id`s, in draw order (which dicts: `TraverseListCollects`) |
| Traversal.WalkValuesTraverses | obasparql/query_manager.py:395-397 | the `get_all_complex_objects` gate changes nothing: walking the values is traversing them |
| Traversal.ProcessDictionaryCollects | obasparql/query_manager.py:394-400 | the inserts are the dicts `Inserts` collects: for each dict reached without an `id`, its descendants' inserts and then the dict as it ends up |
| Traversal.WalkValuesCollects | obasparql/query_manager.py:395-397 | the inserts of a dict's values are those `FieldInserts` collects, value by value |
| Traversal.TraverseFieldsCollects | obasparql/query_manager.py:384-392 | the inserts of the first entries are those `FieldInserts` collects from them |
| Traversal.VisitValueCollects | obasparql/query_manager.py:386-392 | a visited value's inserts are those `Inserts` collects from it and what it became |
| Traversal.TraverseListCollects | obasparql/query_manager.py:387-390 | a list's inserts are those `ListInserts` collects, element by element |
| Traversal.TraverseObjFacts | obasparql/query_manager.py:372-392 | `traverse_obj` keeps the body's keys and primitive values, grows every value (`GrownFields`), identifies every nested dict, and its inserts are exactly the dicts `FieldInserts` collects, post-order, numbered by draw |
| Traversal.InsertIrisDistinct | obasparql/query_manager.py:398-400 | the inserts of one walk carry pairwise different IRIs |
| Traversal.GetAllComplexObjects | obasparql/query_manager.py:402-412 | the loop collects the non-string list elements and the dict values, in order |
| Traversal.NonStringElements | obasparql/query_manager.py:406-409 | the inner loop collects every element that is not a string, in order |
| Writes.PrefixLineReadBack | obasparql/query_manager.py:471 | a prefix line gives back its namespace name and IRI |
| Writes.PrefixLinesAt | obasparql/query_manager.py:470-471 | there is one prefix line per namespace, in order |
| Writes.TripleLinesMembership | obasparql/query_manager.py:473-475 | a line is kept iff it is a Turtle line not starting with `@prefix` |
| Writes.TripleLinesKeepAll | obasparql/query_manager.py:473-475 | without `@prefix` lines every line is kept, in order |
| Writes.TurtleSentAsIs | obasparql/query_manager.py:473-475 | a Turtle text without `@prefix` lines is sent exactly as rdflib wrote it |
| Writes.InsertQueryReadBack | obasparql/query_manager.py:427-430 | the update names its graph and its triples unambiguously |
| Writes.DeleteOutgoingReadBack | obasparql/query_manager.py:441-443 | the first delete names its graph and its resource unambiguously |
| Writes.DeleteIncomingReadBack | obasparql/query_manager.py:453-455 | the second delete names its graph and its resource unambiguously |
| Writes.DeletesDiffer | obasparql/query_manager.py:440-463 | the two deletes are never the same query |
| Writes.PrepareJsonldFacts | obasparql/query_manager.py:414-425 | the `id` becomes its instance IRI and nothing else changes; the document is the resource with the engine's context under `@context`; preparing an already prepared resource changes nothing more |
| Writes.InsertAllFacts | obasparql/query_manager.py:535-546 | a parsable document gives one update whose outcome is the store's; without `@prefix` lines its text is the prefix block, then `INSERT DATA` with the Turtle |
| Writes.DeleteQueryProtocol | obasparql/query_manager.py:440-463 | the outgoing delete goes first, and the incoming one only when asked and the first succeeded; the answer is `Deleted` iff every query sent succeeded, else the delete error |
| Writes.WithTypeFacts | obasparql/query_manager.py:272-275 | the class IRI is appended to a `type` list that lacks it; otherwise `type` becomes the list of the class alone; the test raises where `in` or `append` raise |
| Writes.WithTypeWalkable | obasparql/query_manager.py:272-275 | the class test keeps a walkable body walkable |
| Writes.InsertLogFacts | obasparql/query_manager.py:398-400 | the inserts of the walk are sent in walk order, one update each, and stop at the first one rdflib cannot parse |
| Writes.InsertLogStep | obasparql/query_manager.py:398-400 | one more logged resource is inserted, or stops the run where rdflib raises |
| Writes.InsertLogStaysCrashed | obasparql/query_manager.py:398-400 | once an insert raised, no later one is attempted |
| Writes.Walked | obasparql/query_manager.py:281-284 | the walk of the stamped body grows every value, leaves every nested dict identified, keeps the fresh `id`, and inserts exactly the dicts `FieldInserts` collects, numbered from the next draw |
| Writes.PostRejectsOwnId | obasparql/query_manager.py:276-280 | a body with its own `id` is refused before any identifier is drawn or any call is sent |
| Writes.WalkedKeys | obasparql/query_manager.py:281-284 | `id` aside, the walked body has exactly the typed body's keys, and each value is grown from the typed body's |
| Writes.PostCreatedResource | obasparql/query_manager.py:264-291 | a created resource is returned with the IRI of its fresh identifier, every dict in it has an `id`, and apart from `id` it has exactly the typed body's keys (`type` included), each value grown from the body's |
| Writes.PostCreatedInserts | obasparql/query_manager.py:281-291 | a created resource cost one insert per entry of the walk's log (the dicts `Writes.Walked` shows `FieldInserts` collects), in walk order and numbered by draw, and then the successful insert of the body |
| Writes.PostWalkOutcome | obasparql/query_manager.py:284-291 | a post either raises, is refused or is created; unless it raised, its last call is an update, and it is created iff that update succeeded |
| Writes.PutResourceFacts | obasparql/query_manager.py:215-253 | without a user nothing is sent; otherwise the outgoing delete, then the insert of the body with its IRI as `id`; `201` iff the insert succeeded, and a raise iff rdflib cannot parse the body |
| Writes.DeleteResourceFacts | obasparql/query_manager.py:255-262 | both deletes are sent on the identifier exactly as given, and the answer is `Deleted` iff both succeed |
| Reading.BadRequest | obasparql/query_manager.py:194-213 | a failed read answers 500, with `Bad request` on the one-resource path and `Bad request error` on the other |
| Reading.GetResourceOutcome | obasparql/query_manager.py:103-213 | a GET answers a listing or the bad-request reply, sends at most one query and leaves the context as it was or normalised; an unknown class or kind sends nothing |
| Reading.GetResourceQuery | obasparql/query_manager.py:295-318 | the one query sent is the class's template for the kind, bound to the request arguments and then paginated |
| Reading.GetResourceListing | obasparql/query_manager.py:316-325 | a listing is the store's answer framed by type and, for a get-one request not skipping it, by the instance IRI |
| Reading.ContextSettlesAfterReads | obasparql/query_manager.py:352-358 | after any two reads the context is the original one or its normalisation |
| Engine.QueryManager.constructor | obasparql/query_manager.py:29-101 | the shared table and bound classes as built from a listing that holds `_default_`; the context with its snake-case aliases; the class context without `type` and `id`; the override context is the class context as read; no calls, no draws |
| Engine.QueryManager.WriteTemplates | obasparql/query_manager.py:71-73 | the loop writes every template of a directory over the shared table |
| Engine.QueryManager.ConvertSnakeDict | obasparql/query_manager.py:479-496 | the loop leaves the context as `SnakeDict` describes |
| Engine.QueryManager.NormaliseFrameContext | obasparql/query_manager.py:352-358 | the engine's context becomes its normalisation |
| Engine.QueryManager.FrameResults | obasparql/query_manager.py:332-368 | the result and the new context are those of `Framing.FrameResults` |
| Engine.QueryManager.GetResource | obasparql/query_manager.py:103-124 | the reply, the context and the calls are those of `Reading.GetResource` |
| Engine.QueryManager.OverwriteEndpointContext | obasparql/query_manager.py:327-330 | without an override context the call fails; otherwise the loop gives the overridden context |
| Engine.QueryManager.GetInsertQuery | obasparql/query_manager.py:465-476 | the prefix lines and the kept Turtle lines, or a raise when rdflib cannot parse |
| Engine.QueryManager.InsertQuery | obasparql/query_manager.py:427-438 | exactly one update is sent, and the result is whether the store took it |
| Engine.QueryManager.InsertDocument | obasparql/query_manager.py:535-546 | one update is sent and its outcome returned, or nothing is sent when rdflib raises |
| Engine.QueryManager.DeleteQuery | obasparql/query_manager.py:440-463 | the calls and the answer are those of `Writes.DeleteQuery` |
| Engine.QueryManager.DeleteResource | obasparql/query_manager.py:255-262 | the calls and the answer are those of `Writes.DeleteResource` |
| Engine.QueryManager.PutResource | obasparql/query_manager.py:215-253 | the calls and the answer are those of `Writes.PutResource` |
| Engine.QueryManager.PostResource | obasparql/query_manager.py:264-291 | the calls, the answer and the identifiers drawn are those of `Writes.PostResource` |
| Engine.QueryManager.PostNew | obasparql/query_manager.py:281-291 | after the type and id checks: the calls, answer and draws of `Writes.PostWalk` |
| Engine.QueryManager.InsertNested | obasparql/query_manager.py:394-400 | the walk's inserts are sent in order until one raises, with one draw per insert attempted |
| Engine.QueryManager.InsertEntry | obasparql/query_manager.py:398-400 | one logged resource is inserted with the context attached, and the run stops iff rdflib raised |

## Left out

- Reading files and directories, logging, and `exit(1)` on a missing context file. Directory listings, template files and context documents are parameters of the constructor.
- The store and the libraries are function-valued parameters, with no state of their own. These are the SPARQL connector, `gquery`'s metadata and rewriting, rdflib's parsing and Turtle output, and pyld's expansion and framing. A call that raises is `None` or `false`.
- The store's contents are not modelled; the engine keeps the log of calls it sent.
- The GET query goes through a new connector, not the engine's; the model logs it with the other calls.
- `uuid4` is modelled as a counter mapped injectively to text (`Utils.FreshId`). Randomness and uniqueness across processes are out.
- `Utils.LowerRun`: states only that the run fits in the text, not that it is the longest run of lower-case letters; `Utils.CapitalWordAt` and the examples pin down the runs the proofs need.
- Lower-casing covers ASCII letters only. Other characters are kept as they are, unlike Python's Unicode `lower()`.
- Floats and integer widths are left out: JSON numbers are unbounded integers.
- A `username`, `page` or `per_page` keyword passed with the value `None` is treated like a missing keyword. The source treats it as present.
- `Engine.QueryManager.PutResource`, `Writes.PutResource`: a `user` keyword passed as `None` is conflated with a missing one. In the source it gives the graph of the user `None` rather than the 400 answer.
- A class directory named like one of the engine's attributes is not modelled.
- The walk of `post_resource` is computed on values: the nested dicts are updated in place in the source, and aliasing between them is not captured.
- `put_resource` receives a generated model object. Its body is modelled as that object's dict view, so `prepare_jsonld` takes its non-dict branch and the `id` set at line 218 is not prefixed again.
- `Engine.QueryManager.PostResource`, `Writes.PostResource`, `Writes.PostWalk`: require a walkable body. In the source a list nested directly in a list, or `None` inside a list, makes the walk raise.
- The `FileNotFoundError` branch that sets the override context to `None` is not reached from the constructor: the same file was read before it, and a missing file ends the process there. The field keeps its `None` case, and `OverwriteEndpointContext` still handles it.
- `Engine.QueryManager.OverwriteEndpointContext`: returns the overridden context rather than updating the caller's dict in place.
- The `Error deleting query` answer of `put_resource` is not modelled: `delete_query` catches every exception itself, so that branch cannot be reached.
- `Templates.ReadTemplate`: a listing is a sequence of (name, text) pairs; subdirectories and unreadable files are not modelled.
- The debug output of templates and answers, and the endpoint credentials, are left out.
