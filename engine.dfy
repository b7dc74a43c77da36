/**
 * `QueryManager` itself: the object built once per API server, holding the
 * shared template table, the bound class names, the property context (which
 * every framing normalises in place), the class context and the optional
 * overwrite context. The store and the JSON-LD processor it talks to are
 * fixed at construction; `calls` records what it sent to the store and
 * `idsDrawn` how many fresh identifiers it has drawn.
 */
module Engine {
  import opened Wrappers
  import opened Json
  import opened Strings
  import opened Static
  import opened Utils
  import opened Templates
  import opened Routing
  import opened Contexts
  import opened Framing
  import opened Traversal
  import opened Remote
  import opened Writes
  import opened Reading

  class QueryManager {
    const graphBase: string
    const uriPrefix: string
    const isUrl: string -> bool
    const store: Store
    const ld: Processor

    var table: Table
    var classes: set<string>
    var context: Context
    var classContext: Context
    var contextOverwrite: Option<Context>
    var calls: seq<Call>
    var idsDrawn: nat

    /** `build_instance_uri` as the walk uses it. */
    function Mint(): Minter {
      Minter(isUrl, uriPrefix)
    }

    /**
     * `__init__`, with the directory listings and the three context files
     * already read: the templates of `_default_` and then of each class
     * directory in listing order go into one shared table; the property
     * context gets its snake-case aliases; the class context loses `type`
     * and `id`. The directory listing holds `_default_` itself, and the
     * override context is read from the class-context file, so it is that
     * file's context as read, `type` and `id` included.
     */
    constructor (graphBase: string, uriPrefix: string, isUrl: string -> bool, store: Store, ld: Processor,
                 defaults: Files, dirs: Dirs, tempContext: Context, tempClassContext: Context)
      requires (DefaultDir, defaults) in dirs
      requires DistinctKeys(tempClassContext)
      ensures this.graphBase == graphBase && this.uriPrefix == uriPrefix && this.isUrl == isUrl
      ensures this.store == store && this.ld == ld
      ensures table == SharedTable(TemplatesOf(defaults), dirs) && classes == BoundClasses(dirs)
      ensures context == SnakeDict(tempContext, tempContext)
      ensures classContext == RemoveJsonldKey(RemoveJsonldKey(tempClassContext, ContextTypeKey), ContextIdKey)
      ensures contextOverwrite == Some(tempClassContext) && calls == [] && idsDrawn == 0
    {
      this.graphBase := graphBase;
      this.uriPrefix := uriPrefix;
      this.isUrl := isUrl;
      this.store := store;
      this.ld := ld;
      var defaultTable := ReadTemplate(defaults);
      var shared := defaultTable;
      var bound := {DefaultDir};
      var i := 0;
      while i < |dirs|
        invariant 0 <= i <= |dirs|
        invariant shared == SharedTable(defaultTable, dirs[..i])
        invariant bound == BoundClasses(dirs[..i])
      {
        var queries := ReadTemplate(dirs[i].1);
        bound := bound + {dirs[i].0};
        shared := WriteTemplates(shared, queries);
        DirsSnoc(defaultTable, dirs, i);
        i := i + 1;
      }
      assert dirs[..i] == dirs;
      table := shared;
      classes := bound;
      contextOverwrite := Some(tempClassContext);
      classContext := RemoveJsonldKey(RemoveJsonldKey(tempClassContext, ContextTypeKey), ContextIdKey);
      context := tempContext;
      calls := [];
      idsDrawn := 0;
      new;
      ConvertSnakeDict(tempContext);
    }

    /** The inner loop of `__init__`: each template of a class directory is written into the shared table. */
    static method WriteTemplates(shared: Table, queries: Table) returns (r: Table)
      ensures r == shared + queries
    {
      r := shared;
      var pending := queries.Keys;
      while pending != {}
        invariant pending <= queries.Keys
        invariant forall k :: k in r <==> k in shared || k in queries.Keys - pending
        invariant forall k :: k in r ==> r[k] == if k in queries.Keys - pending then queries[k] else shared[k]
        decreases pending
      {
        var k :| k in pending;
        r := r[k := queries[k]];
        pending := pending - {k};
      }
    }

    /** `convert_snake_dict`: every term is written under its name and, when that differs, its snake-case name. */
    method ConvertSnakeDict(temp: Context)
      modifies this`context
      ensures context == SnakeDict(old(context), temp)
    {
      ghost var start := context;
      var i := 0;
      while i < |temp|
        invariant 0 <= i <= |temp|
        invariant context == SnakeDict(start, temp[..i])
      {
        var (key, value) := temp[i];
        var keySnake := ConvertSnake(key);
        SnakeDictStep(start, temp, i);
        context := Put(context, key, value);
        if keySnake != key {
          context := Put(context, keySnake, value);
        }
        i := i + 1;
      }
      assert temp[..i] == temp;
    }

    /**
     * The normalisation in `frame_results`: `type` and `id` become aliases
     * of `@type` and `@id`, then every dict definition gets a set container
     * and loses a `@type` that is not `@id`.
     */
    method NormaliseFrameContext()
      modifies this`context
      ensures context == NormaliseContext(old(context))
    {
      context := Put(context, "type", TypeValue);
      context := Put(context, "id", IdValue);
      ghost var aliased := context;
      var i := 0;
      while i < |context|
        invariant |context| == |aliased| && 0 <= i <= |context|
        invariant forall j :: 0 <= j < i ==> context[j] == (aliased[j].0, NormaliseEntry(aliased[j].1))
        invariant forall j :: i <= j < |context| ==> context[j] == aliased[j]
      {
        var (prop, definition) := context[i];
        if definition.Obj? {
          var fs := Put(definition.fields, ContainerKey, SetValue);
          if HasKey(fs, TypeKey) && Get(fs, TypeKey) != Some(IdValue) {
            fs := Pop(fs, TypeKey);
          }
          context := context[i := (prop, Obj(fs))];
        }
        i := i + 1;
      }
      assert context == NormaliseEntries(aliased);
    }

    /** `frame_results(resp, owl_class_uri, owl_resource_iri)`. */
    method FrameResults(resp: string, rdfType: string, id: Option<string>) returns (out: Framed)
      modifies this`context
      ensures (out, context) == Framing.FrameResults(ld, resp, old(context), rdfType, id)
    {
      match ld.parse(resp)
      case None =>
        out := Items(Arr([]));
      case Some(doc) =>
        if !HasLength(doc) {
          return Raised;
        }
        match ld.expand(doc)
        case None =>
          out := Raised;
        case Some(expanded) =>
          NormaliseFrameContext();
          if CleanUpRaises(doc) {
            return Raised;
          }
          var request := Obj([("@graph", expanded), ("@context", Obj(context))]);
          match ld.frame(request, Frame(context, rdfType, id))
          case None =>
            out := Raised;
          case Some(framed) =>
            out := Items(Extract(framed));
    }

    /** `get_resource(**kwargs)` down to `obtain_query` and `dispatch_sparql_query`. */
    method GetResource(req: Request) returns (reply: Reply)
      modifies this`context, this`calls
      ensures var r := Reading.GetResource(store, ld, table, classes, isUrl, uriPrefix, graphBase, old(context), req);
              reply == r.reply && context == r.context && calls == old(calls) + r.calls
    {
      var route := SelectRoute(req);
      var fail := BadRequest(req);
      var template := Resolve(table, classes, req.rdfTypeName, route.kind);
      if template.None? {
        return fail;
      }
      var args := WithOffset(RequestArgs(req, isUrl, uriPrefix, graphBase));
      var bound := store.bind(template.value, args);
      if bound.None? {
        return fail;
      }
      var query := Paginate(bound.value, args);
      calls := calls + [Query(query)];
      var resp := store.select(query);
      if resp.None? {
        return fail;
      }
      var framed := FrameResults(resp.value, req.rdfTypeUri, FrameId(args, SkipIdFraming(req)));
      reply := if framed.Items? then Listing(framed.items) else fail;
    }

    /**
     * `overwrite_endpoint_context(endpoint_context)`: the overwrite terms
     * replace the endpoint's terms of the same name; `None` when there is no
     * overwrite context (iterating over `None` raises).
     */
    method OverwriteEndpointContext(endpoint: Context) returns (r: Option<Context>)
      ensures contextOverwrite.None? ==> r.None?
      ensures contextOverwrite.Some? ==> r == Some(Contexts.OverwriteEndpointContext(endpoint, contextOverwrite.value))
    {
      if contextOverwrite.None? {
        return None;
      }
      var overwrite := contextOverwrite.value;
      var current := endpoint;
      var i := 0;
      while i < |overwrite|
        invariant 0 <= i <= |overwrite|
        invariant current == Contexts.OverwriteEndpointContext(endpoint, overwrite[..i])
      {
        var (key, value) := overwrite[i];
        OverwriteLookup(endpoint, overwrite[..i], key);
        OverwriteStep(endpoint, overwrite, i);
        if HasKey(current, key) {
          current := Put(current, key, value);
        }
        i := i + 1;
      }
      assert overwrite[..i] == overwrite;
      r := Some(current);
    }

    /** `get_insert_query`: the namespaces as prefix lines and the Turtle lines that are not `@prefix` lines. */
    method GetInsertQuery(doc: Json) returns (r: Option<(seq<string>, seq<string>)>)
      ensures store.turtle(doc).None? ==> r.None?
      ensures store.turtle(doc).Some? ==>
                var (namespaces, turtle) := store.turtle(doc).value;
                r == Some((PrefixLines(namespaces), TripleLines(SplitOn(turtle, NewLine))))
    {
      var graph := store.turtle(doc);
      if graph.None? {
        return None;
      }
      var (namespaces, turtle) := graph.value;
      var prefixes := [];
      var i := 0;
      while i < |namespaces|
        invariant 0 <= i <= |namespaces|
        invariant prefixes == PrefixLines(namespaces[..i])
      {
        assert namespaces[..i + 1][..i] == namespaces[..i];
        prefixes := prefixes + [PrefixLine(namespaces[i])];
        i := i + 1;
      }
      assert namespaces[..i] == namespaces;
      var lines := SplitOn(turtle, NewLine);
      var triples := [];
      var j := 0;
      while j < |lines|
        invariant 0 <= j <= |lines|
        invariant triples == TripleLines(lines[..j])
      {
        assert lines[..j + 1][..j] == lines[..j];
        if !StartsWith(lines[j], PrefixDirective) {
          triples := triples + [lines[j]];
        }
        j := j + 1;
      }
      assert lines[..j] == lines;
      r := Some((prefixes, triples));
    }

    /** `insert_query`: one update; `false` when the store raised. */
    method InsertQuery(prefixes: string, g: string, triples: string) returns (ok: bool)
      modifies this`calls
      ensures calls == old(calls) + [Update(InsertQueryText(prefixes, g, triples))]
      ensures ok == store.update(InsertQueryText(prefixes, g, triples))
    {
      var query := InsertQueryText(prefixes, g, triples);
      calls := calls + [Update(query)];
      ok := store.update(query);
    }

    /** `insert_all_resources` from the prepared document on: `None` when rdflib raised. */
    method InsertDocument(doc: Json, g: string) returns (ok: Option<bool>)
      modifies this`calls
      ensures var spec := InsertAll(store, doc, g);
              (spec.None? ==> ok.None? && calls == old(calls)) &&
              (spec.Some? ==> ok == Some(spec.value.1) && calls == old(calls) + [spec.value.0])
    {
      var parts := GetInsertQuery(doc);
      if parts.None? {
        return None;
      }
      var (prefixes, triples) := parts.value;
      var done := InsertQuery(JoinWith(prefixes, NewLine), g, JoinWith(triples, NewLine));
      ok := Some(done);
    }

    /** `delete_query(request_args)`. */
    method DeleteQuery(g: string, r: string, incoming: bool) returns (reply: Reply)
      modifies this`calls
      ensures reply == Writes.DeleteQuery(store, g, r, incoming).1
      ensures calls == old(calls) + Writes.DeleteQuery(store, g, r, incoming).0
    {
      var outgoing := DeleteOutgoingText(g, r);
      calls := calls + [Query(outgoing)];
      if !store.query(outgoing) {
        return DeleteFailed;
      }
      if incoming {
        var reverse := DeleteIncomingText(g, r);
        calls := calls + [Query(reverse)];
        if !store.query(reverse) {
          return DeleteFailed;
        }
      }
      reply := Deleted;
    }

    /** `delete_resource(username, resource_id)`. */
    method DeleteResource(username: Option<string>, resourceId: string) returns (reply: Reply)
      modifies this`calls
      ensures reply == Writes.DeleteResource(store, graphBase, username, resourceId).1
      ensures calls == old(calls) + Writes.DeleteResource(store, graphBase, username, resourceId).0
    {
      reply := DeleteQuery(GenerateGraph(graphBase, username), resourceId, true);
    }

    /** `put_resource(id=..., body=..., user=...)`; `user` is `None` when the keyword is missing. */
    method PutResource(id: string, body: Fields, user: Option<string>) returns (reply: Reply)
      modifies this`calls
      ensures reply == Writes.PutResource(store, Mint(), context, graphBase, id, body, user).1
      ensures calls == old(calls) + Writes.PutResource(store, Mint(), context, graphBase, id, body, user).0
    {
      var resourceUri := BuildInstanceUri(isUrl, uriPrefix, id);
      var updated := Put(body, IdKey, Str(resourceUri));
      if user.None? {
        return MissingUser;
      }
      var g := GenerateGraph(graphBase, user);
      var ignored := DeleteQuery(g, resourceUri, false);
      var ok := InsertDocument(Document(updated, context), g);
      if ok.None? {
        return Crash;
      }
      reply := if ok.value then Answer(Obj(updated), 201) else PutRejected;
    }

    /**
     * `post_resource(username, body, rdf_type_uri)`: the class test, the
     * refusal of a body with an `id`, then the fresh identifier and the rest.
     */
    method PostResource(username: Option<string>, body: Fields, uri: string) returns (reply: Reply)
      requires Walkable(Obj(body))
      modifies this`calls, this`idsDrawn
      ensures var p := Writes.PostResource(store, Mint(), context, graphBase, username, body, uri, old(idsDrawn));
              reply == p.reply && calls == old(calls) + p.calls && idsDrawn == p.next
    {
      var typed := WithType(body, uri);
      if typed.None? {
        return Crash;
      }
      if HasKey(typed.value, IdKey) {
        return PostRejected;
      }
      WithTypeWalkable(body, uri);
      reply := PostNew(GenerateGraph(graphBase, username), typed.value);
    }

    /**
     * `post_resource` from `generate_new_id` on: the walk, one insert per
     * nested dict without `id` (each after drawing its identifier), and the
     * insert of the body.
     */
    method PostNew(g: string, typed: Fields) returns (reply: Reply)
      requires Walkable(Obj(typed))
      modifies this`calls, this`idsDrawn
      ensures var p := PostWalk(store, Mint(), context, g, typed, old(idsDrawn));
              reply == p.reply && calls == old(calls) + p.calls && idsDrawn == p.next
    {
      PutWalkable(typed, IdKey, Str(FreshId(idsDrawn)));
      var n := idsDrawn;
      var stamped := Stamped(typed, n);
      idsDrawn := n + 1;
      var w := TraverseObj(Mint(), stamped, n + 1);
      assert w == Walked(Mint(), typed, n);
      var crashed := InsertNested(w.log, g);
      if crashed {
        return Crash;
      }
      var (top, doc) := PrepareJsonld(Mint(), w.out, context);
      var ok := InsertDocument(doc, g);
      match ok
      case None =>
        reply := Crash;
      case Some(inserted) =>
        reply := if inserted then Answer(Obj(top), 201) else PostRejected;
    }

    /** The inserts `process_dictionary` makes during the walk, in order, until one raises. */
    method InsertNested(log: seq<Fields>, g: string) returns (crashed: bool)
      modifies this`calls, this`idsDrawn
      ensures var s := InsertLog(store, context, log, g, |log|);
              crashed == s.crashedAt.Some? && calls == old(calls) + s.calls &&
              idsDrawn == old(idsDrawn) + (if crashed then s.crashedAt.value + 1 else |log|)
    {
      ghost var calls0 := calls;
      var i := 0;
      while i < |log|
        invariant 0 <= i <= |log|
        invariant InsertLog(store, context, log, g, i).crashedAt.None?
        invariant calls == calls0 + InsertLog(store, context, log, g, i).calls
        invariant idsDrawn == old(idsDrawn) + i
      {
        idsDrawn := idsDrawn + 1;
        var stopped := InsertEntry(log, g, i, calls0);
        if stopped {
          InsertLogStaysCrashed(store, context, log, g, i + 1, |log|);
          return true;
        }
        i := i + 1;
      }
      crashed := false;
    }

    /** One step of the walk's inserts: the `i`-th logged resource, with the context attached. */
    method InsertEntry(log: seq<Fields>, g: string, i: nat, ghost calls0: seq<Call>) returns (stopped: bool)
      requires i < |log| && InsertLog(store, context, log, g, i).crashedAt.None?
      requires calls == calls0 + InsertLog(store, context, log, g, i).calls
      modifies this`calls
      ensures var s := InsertLog(store, context, log, g, i + 1);
              stopped == s.crashedAt.Some? && calls == calls0 + s.calls
    {
      InsertLogStep(store, context, log, g, i);
      var ok := InsertDocument(Document(log[i], context), g);
      stopped := ok.None?;
    }
  }
}
