/**
 * Routing of a GET request: which query kind `get_resource` picks, the
 * request arguments it fills in for the template (`resource`, `type`, `g`,
 * `offset`), the pagination rewrite of the query text and the choice of
 * framing by `@id`.
 */
module Routing {
  import opened Wrappers
  import opened Strings
  import opened Static
  import opened Utils

  /**
   * The keyword arguments of `get_resource`. `None` stands for a keyword
   * the caller did not pass; `rdf_type_name` and `rdf_type_uri` are always
   * passed. `skipIdFraming` holds the truth value of the passed value.
   */
  datatype Request = Request(
    id: Option<string>,
    username: Option<string>,
    customQueryName: Option<string>,
    page: Option<int>,
    perPage: Option<int>,
    skipIdFraming: Option<bool>,
    rdfTypeName: string,
    rdfTypeUri: string)

  /** The `request_args` dict; `None` is a key that is not in it. */
  datatype Args = Args(
    page: Option<int>,
    perPage: Option<int>,
    resource: Option<string>,
    rdfType: Option<string>,
    graph: Option<string>,
    offset: Option<int>)

  /** The query kind and whether the request goes through `get_one_resource` (otherwise `get_all_resource`). */
  datatype Route = Route(kind: string, one: bool)

  predicate IsUserKind(kind: string) {
    kind == QueryTypeGetAllUser || kind == QueryTypeGetOneUser
  }

  predicate IsOneKind(kind: string) {
    kind == QueryTypeGetOne || kind == QueryTypeGetOneUser
  }

  /** `get_resource_custom` and `get_resource_not_custom`: the kind and the path taken. */
  function SelectRoute(req: Request): (r: Route)
    ensures r.one <==> req.id.Some?
    ensures req.customQueryName.Some? ==> r.kind == req.customQueryName.value
    ensures req.customQueryName.None? ==> r.kind in QueriesTypes
    ensures req.customQueryName.None? ==> (IsUserKind(r.kind) <==> req.username.Some?)
    ensures req.customQueryName.None? ==> (IsOneKind(r.kind) <==> req.id.Some?)
  {
    if req.customQueryName.Some? then Route(req.customQueryName.value, req.id.Some?)
    else if req.id.Some? && req.username.Some? then Route(QueryTypeGetOneUser, true)
    else if req.id.Some? then Route(QueryTypeGetOne, true)
    else if req.username.Some? then Route(QueryTypeGetAllUser, false)
    else Route(QueryTypeGetAll, false)
  }

  /** `str(username)`: a missing user name is formatted as the text `None`. */
  function UserText(username: Option<string>): string {
    if username.Some? then username.value else "None"
  }

  /** `generate_graph`: the named graph of a user. */
  function GenerateGraph(graphBase: string, username: Option<string>): (g: string)
    ensures StartsWith(g, graphBase)
    ensures username.Some? ==> g[|graphBase|..] == username.value
  {
    GenerateUri(graphBase, UserText(username))
  }

  /** Different user names get different graphs. */
  lemma GraphInjective(graphBase: string, u1: string, u2: string)
    requires GenerateGraph(graphBase, Some(u1)) == GenerateGraph(graphBase, Some(u2))
    ensures u1 == u2
  {
    assert u1 == GenerateGraph(graphBase, Some(u1))[|graphBase|..];
  }

  /** A request without a user name reads the graph of the user called `None`. */
  lemma MissingUserGraph(graphBase: string)
    ensures GenerateGraph(graphBase, None) == GenerateGraph(graphBase, Some("None"))
  {
  }

  /** `build_instance_uri`: a URL is kept, anything else is put after the prefix. */
  function BuildInstanceUri(isUrl: string -> bool, uriPrefix: string, uri: string): (r: string)
    ensures isUrl(uri) ==> r == uri
    ensures !isUrl(uri) ==> StartsWith(r, uriPrefix) && r[|uriPrefix|..] == uri
  {
    if isUrl(uri) then uri else uriPrefix + uri
  }

  /** Two identifiers that are not URLs never share an instance IRI. */
  lemma InstanceUriInjective(isUrl: string -> bool, uriPrefix: string, a: string, b: string)
    requires !isUrl(a) && !isUrl(b)
    requires BuildInstanceUri(isUrl, uriPrefix, a) == BuildInstanceUri(isUrl, uriPrefix, b)
    ensures a == b
  {
    assert a == BuildInstanceUri(isUrl, uriPrefix, a)[|uriPrefix|..];
  }

  /**
   * The `request_args` that `get_one_resource` or `get_all_resource` hands to
   * `obtain_query`: `page` and `per_page` when passed, then the resource IRI
   * (one) or the class IRI (all), then the graph.
   */
  function RequestArgs(req: Request, isUrl: string -> bool, uriPrefix: string, graphBase: string): (a: Args)
    ensures a.page == req.page && a.perPage == req.perPage
    ensures a.resource.Some? <==> req.id.Some?
    ensures req.id.Some? ==> a.resource.value == BuildInstanceUri(isUrl, uriPrefix, req.id.value)
    ensures a.rdfType.Some? <==> req.id.None?
    ensures req.id.None? ==> a.rdfType.value == req.rdfTypeUri
    ensures a.graph == Some(GenerateGraph(graphBase, req.username))
    ensures a.offset.None?
  {
    var graph := Some(GenerateGraph(graphBase, req.username));
    if SelectRoute(req).one then
      Args(req.page, req.perPage, Some(BuildInstanceUri(isUrl, uriPrefix, req.id.value)), None, graph, None)
    else
      Args(req.page, req.perPage, None, Some(req.rdfTypeUri), graph, None)
  }

  /** `skip_id_framing` as `get_one_resource` computes it; the get-all path never skips. */
  function SkipIdFraming(req: Request): bool {
    SelectRoute(req).one && req.skipIdFraming == Some(true)
  }

  /** `obtain_query`, lines setting `offset`: `(page - 1) * per_page` when both are present. */
  function WithOffset(a: Args): (r: Args)
    requires a.offset.None?
    ensures r.offset.Some? <==> a.page.Some? && a.perPage.Some?
    ensures r.offset.Some? ==> r.offset.value == (a.page.value - 1) * a.perPage.value
    ensures r.(offset := a.offset) == a
  {
    if a.page.Some? && a.perPage.Some? then a.(offset := Some((a.page.value - 1) * a.perPage.value))
    else a
  }

  /** The offset gives the page back: it is a whole number of pages, and never negative from page one on. */
  lemma OffsetIsWholePages(a: Args)
    requires a.offset.None? && a.page.Some? && a.perPage.Some? && a.perPage.value > 0
    ensures WithOffset(a).offset.value % a.perPage.value == 0
    ensures WithOffset(a).offset.value / a.perPage.value + 1 == a.page.value
    ensures a.page.value >= 1 ==> WithOffset(a).offset.value >= 0
  {
    var p, n := a.page.value, a.perPage.value;
    LemmaMulDiv(p - 1, n);
  }

  lemma LemmaMulDiv(q: int, n: int)
    requires n > 0
    ensures (q * n) % n == 0 && (q * n) / n == q
  {
    var m := q * n;
    var d, r := m / n, m % n;
    assert m == d * n + r && 0 <= r < n;
    var k := q - d;
    assert k * n == r by {
      assert k * n == q * n - d * n;
    }
  }

  const LimitMarker := "LIMIT 100"
  const OffsetMarker := "OFFSET 0"

  /**
   * The pagination rewrite of `dispatch_sparql_query`: with `per_page` and
   * `offset` both present, every `LIMIT 100` becomes `LIMIT <per_page>`, and
   * then every `OFFSET 0` becomes `OFFSET <offset>`.
   */
  function Paginate(query: string, a: Args): string {
    if a.perPage.Some? && a.offset.Some? then
      var limited := ReplaceAll(query, LimitMarker, "LIMIT " + IntToString(a.perPage.value));
      ReplaceAll(limited, OffsetMarker, "OFFSET " + IntToString(a.offset.value))
    else query
  }

  /** Without both keys the query text is left as it is. */
  lemma PaginateNeedsBothKeys(query: string, a: Args)
    requires a.perPage.None? || a.offset.None?
    ensures Paginate(query, a) == query
  {
  }

  /**
   * With both keys, each step cuts the text at the marker, keeps the pieces
   * between the markers (none of which holds the marker) and puts the new
   * clause where each marker was.
   */
  lemma PaginateRewritesMarkers(query: string, a: Args)
    requires a.perPage.Some? && a.offset.Some?
    ensures var pieces := SplitOn(query, LimitMarker);
            var limited := JoinWith(pieces, "LIMIT " + IntToString(a.perPage.value));
            var rest := SplitOn(limited, OffsetMarker);
            JoinWith(pieces, LimitMarker) == query &&
            (forall i :: 0 <= i < |pieces| ==> !Contains(pieces[i], LimitMarker)) &&
            JoinWith(rest, OffsetMarker) == limited &&
            (forall i :: 0 <= i < |rest| ==> !Contains(rest[i], OffsetMarker)) &&
            Paginate(query, a) == JoinWith(rest, "OFFSET " + IntToString(a.offset.value))
  {
    var l := "LIMIT " + IntToString(a.perPage.value);
    var o := "OFFSET " + IntToString(a.offset.value);
    JoinSplit(query, LimitMarker);
    PiecesAvoidSeparator(query, LimitMarker);
    ReplaceIsJoinOfSplit(query, LimitMarker, l);
    var limited := ReplaceAll(query, LimitMarker, l);
    JoinSplit(limited, OffsetMarker);
    PiecesAvoidSeparator(limited, OffsetMarker);
    ReplaceIsJoinOfSplit(limited, OffsetMarker, o);
  }

  /** A query with neither marker passes through unchanged. */
  lemma PaginateWithoutMarkers(query: string, a: Args)
    requires !Contains(query, LimitMarker) && !Contains(query, OffsetMarker)
    ensures Paginate(query, a) == query
  {
    if a.perPage.Some? && a.offset.Some? {
      ReplaceAbsent(query, LimitMarker, "LIMIT " + IntToString(a.perPage.value));
      ReplaceAbsent(query, OffsetMarker, "OFFSET " + IntToString(a.offset.value));
    }
  }

  /** The `@id` the frame asks for: the resource IRI, unless there is none or framing by id is skipped. */
  function FrameId(a: Args, skipIdFraming: bool): (id: Option<string>)
    ensures id.Some? <==> a.resource.Some? && !skipIdFraming
    ensures id.Some? ==> id == a.resource
  {
    if a.resource.Some? && !skipIdFraming then a.resource else None
  }

  /** A get-all request is framed by type only; a get-one request by its resource IRI unless skipped. */
  lemma FrameIdByRoute(req: Request, isUrl: string -> bool, uriPrefix: string, graphBase: string)
    ensures var a := WithOffset(RequestArgs(req, isUrl, uriPrefix, graphBase));
            var id := FrameId(a, SkipIdFraming(req));
            (id.Some? <==> req.id.Some? && req.skipIdFraming != Some(true)) &&
            (id.Some? ==> id.value == BuildInstanceUri(isUrl, uriPrefix, req.id.value))
  {
  }
}
