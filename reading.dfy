/**
 * The read side of `QueryManager`: `get_resource` picks the query kind,
 * fills in the request arguments, looks the template up in the class's
 * table, lets the store bind and run it (after the pagination rewrite) and
 * frames the answer. Any exception on the way becomes a 500 answer whose
 * text depends on whether one resource or all of them were asked for; the
 * normalisation of the context done by the framing stays in the engine.
 */
module Reading {
  import opened Wrappers
  import opened Json
  import opened Strings
  import opened Routing
  import opened Templates
  import opened Contexts
  import opened Framing
  import opened Remote

  /** The outcome of a read: the answer, the engine's context afterwards, the calls made to the store. */
  datatype Got = Got(reply: Reply, context: Context, calls: seq<Call>)

  /** The answer of `request_one` (`Bad request`) or `request_all` (`Bad request error`) when anything raised. */
  function BadRequest(req: Request): (r: Reply)
    ensures r.Answer? && r.code == 500
    ensures r.body == Str("Bad request") <==> req.id.Some?
  {
    Answer(Str(if SelectRoute(req).one then "Bad request" else "Bad request error"), 500)
  }

  /** `get_resource(**kwargs)` on an engine holding `table`, `classes` and the context `ctx`. */
  function GetResource(store: Store, p: Processor, table: Table, classes: set<string>,
                       isUrl: string -> bool, uriPrefix: string, graphBase: string,
                       ctx: Context, req: Request): Got
  {
    var route := SelectRoute(req);
    var fail := BadRequest(req);
    match Resolve(table, classes, req.rdfTypeName, route.kind)
    case None => Got(fail, ctx, [])
    case Some(template) =>
      var a := WithOffset(RequestArgs(req, isUrl, uriPrefix, graphBase));
      match store.bind(template, a)
      case None => Got(fail, ctx, [])
      case Some(bound) =>
        var q := Paginate(bound, a);
        match store.select(q)
        case None => Got(fail, ctx, [Query(q)])
        case Some(resp) =>
          var (framed, after) := FrameResults(p, resp, ctx, req.rdfTypeUri, FrameId(a, SkipIdFraming(req)));
          Got(if framed.Items? then Listing(framed.items) else fail, after, [Query(q)])
  }

  /**
   * A read answers a list or the 500 of its path, sends at most one query,
   * and leaves the context as it was or normalised. Without a template for
   * the class and kind it sends nothing and changes nothing.
   */
  lemma GetResourceOutcome(store: Store, p: Processor, table: Table, classes: set<string>,
                           isUrl: string -> bool, uriPrefix: string, graphBase: string,
                           ctx: Context, req: Request)
    ensures var r := GetResource(store, p, table, classes, isUrl, uriPrefix, graphBase, ctx, req);
            (r.reply.Listing? || r.reply == BadRequest(req)) &&
            |r.calls| <= 1 &&
            (r.context == ctx || r.context == NormaliseContext(ctx)) &&
            (Resolve(table, classes, req.rdfTypeName, SelectRoute(req).kind).None? ==> r == Got(BadRequest(req), ctx, []))
  {
    var route := SelectRoute(req);
    match Resolve(table, classes, req.rdfTypeName, route.kind)
    case None =>
    case Some(template) =>
      var a := WithOffset(RequestArgs(req, isUrl, uriPrefix, graphBase));
      match store.bind(template, a)
      case None =>
      case Some(bound) =>
        var q := Paginate(bound, a);
        match store.select(q)
        case None =>
        case Some(resp) =>
          FrameResultsContext(p, resp, ctx, req.rdfTypeUri, FrameId(a, SkipIdFraming(req)));
  }

  /**
   * The query sent is the class's template for the routed kind, bound to
   * the request arguments, with `LIMIT 100` and `OFFSET 0` rewritten for
   * the page when both `page` and `per_page` were passed.
   */
  lemma GetResourceQuery(store: Store, p: Processor, table: Table, classes: set<string>,
                         isUrl: string -> bool, uriPrefix: string, graphBase: string,
                         ctx: Context, req: Request)
    requires GetResource(store, p, table, classes, isUrl, uriPrefix, graphBase, ctx, req).calls != []
    ensures var r := GetResource(store, p, table, classes, isUrl, uriPrefix, graphBase, ctx, req);
            var kind := SelectRoute(req).kind;
            var a := WithOffset(RequestArgs(req, isUrl, uriPrefix, graphBase));
            req.rdfTypeName in classes && kind in table &&
            store.bind(table[kind], a).Some? &&
            var bound := store.bind(table[kind], a).value;
            r.calls == [Query(Paginate(bound, a))] &&
            (req.page.Some? && req.perPage.Some? ==>
               r.calls[0].text == ReplaceAll(ReplaceAll(bound, LimitMarker, "LIMIT " + IntToString(req.perPage.value)),
                                             OffsetMarker, "OFFSET " + IntToString((req.page.value - 1) * req.perPage.value))) &&
            (req.page.None? || req.perPage.None? ==> r.calls[0].text == bound)
  {
    var r := GetResource(store, p, table, classes, isUrl, uriPrefix, graphBase, ctx, req);
    var kind := SelectRoute(req).kind;
    var a := WithOffset(RequestArgs(req, isUrl, uriPrefix, graphBase));
    assert Resolve(table, classes, req.rdfTypeName, kind).Some?;
    var template := table[kind];
    assert store.bind(template, a).Some?;
    var bound := store.bind(template, a).value;
    assert r.calls == [Query(Paginate(bound, a))];
    if req.page.Some? && req.perPage.Some? {
      assert a.perPage == req.perPage && a.offset == Some((req.page.value - 1) * req.perPage.value);
    } else {
      assert a.offset.None?;
      PaginateNeedsBothKeys(bound, a);
    }
  }

  /**
   * A list comes back only when the store answered and the framing went
   * through; then the context is the normalised one, and the frame asked
   * for the class and, unless framing by id was skipped, for the
   * requested resource's IRI.
   */
  lemma GetResourceListing(store: Store, p: Processor, table: Table, classes: set<string>,
                           isUrl: string -> bool, uriPrefix: string, graphBase: string,
                           ctx: Context, req: Request)
    requires GetResource(store, p, table, classes, isUrl, uriPrefix, graphBase, ctx, req).reply.Listing?
    ensures var r := GetResource(store, p, table, classes, isUrl, uriPrefix, graphBase, ctx, req);
            var a := WithOffset(RequestArgs(req, isUrl, uriPrefix, graphBase));
            var id := FrameId(a, SkipIdFraming(req));
            |r.calls| == 1 && store.select(r.calls[0].text).Some? &&
            var resp := store.select(r.calls[0].text).value;
            r.reply.items == FrameResults(p, resp, ctx, req.rdfTypeUri, id).0.items &&
            r.context == FrameResults(p, resp, ctx, req.rdfTypeUri, id).1 &&
            (id.Some? <==> req.id.Some? && req.skipIdFraming != Some(true)) &&
            (id.Some? ==> id.value == BuildInstanceUri(isUrl, uriPrefix, req.id.value))
  {
    FrameIdByRoute(req, isUrl, uriPrefix, graphBase);
  }

  /**
   * Reads only ever normalise the context, and a normalised context stays
   * as it is: after any two reads the context is the original one or its
   * normal form.
   */
  lemma ContextSettlesAfterReads(store: Store, p: Processor, table: Table, classes: set<string>,
                                 isUrl: string -> bool, uriPrefix: string, graphBase: string,
                                 ctx: Context, req1: Request, req2: Request)
    requires WellFormed(ctx)
    ensures var c1 := GetResource(store, p, table, classes, isUrl, uriPrefix, graphBase, ctx, req1).context;
            var c2 := GetResource(store, p, table, classes, isUrl, uriPrefix, graphBase, c1, req2).context;
            c2 == ctx || c2 == NormaliseContext(ctx)
  {
    var c1 := GetResource(store, p, table, classes, isUrl, uriPrefix, graphBase, ctx, req1).context;
    GetResourceOutcome(store, p, table, classes, isUrl, uriPrefix, graphBase, ctx, req1);
    GetResourceOutcome(store, p, table, classes, isUrl, uriPrefix, graphBase, c1, req2);
    NormaliseContextIdempotent(ctx);
  }
}
