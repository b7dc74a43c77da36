/**
 * `frame_results`: the store's JSON-LD answer is parsed, expanded and framed
 * against the engine's property context. The frame's `@context` is the very
 * dict the engine keeps, so the normalisation done on the way is kept by
 * the engine after the call. The JSON and JSON-LD libraries are given as
 * functions; `None` is a call that raises.
 */
module Framing {
  import opened Wrappers
  import opened Json
  import opened Strings
  import opened Contexts

  /** The frame document: its `@context`, its `@type` and, when framing one resource, its `@id`. */
  datatype Frame = Frame(context: Context, rdfType: string, id: Option<string>)

  /** `json.loads`, `jsonld.expand` and `jsonld.frame` (with `embed: @always`). */
  datatype Processor = Processor(
    parse: string -> Option<Json>,
    expand: Json -> Option<Json>,
    frame: (Json, Frame) -> Option<Fields>)

  /** What `frame_results` gives back: a list of resources, or an exception for its caller. */
  datatype Framed = Items(items: Json) | Raised

  /** `len(x)` is defined (a dict, a list or a string); on numbers, booleans and `None` it raises. */
  predicate HasLength(doc: Json) {
    doc.Obj? || doc.Arr? || doc.Str?
  }

  /** Python `key in x` for a string key; `None` where the test itself raises. */
  function Membership(x: Json, key: string): Option<bool> {
    match x
    case Obj(fs) => Some(HasKey(fs, key))
    case Arr(items) => Some(Str(key) in items)
    case Str(s) => Some(Contains(s, key))
    case _ => None
  }

  /**
   * The clean-up of lines 359-360: `del doc["@graph"]["id"]` when the test
   * before it holds. It has no effect on the result (the expanded document
   * was computed before), but it raises whenever the test raises, whenever
   * `doc` is not a dict and holds `@graph`, and whenever `doc["@graph"]` is
   * not a dict and holds `id`.
   */
  predicate CleanUpRaises(doc: Json) {
    var hasGraph := Membership(doc, "@graph");
    hasGraph.None? ||
    (hasGraph.value &&
     (!doc.Obj? ||
      var graph := Get(doc.fields, "@graph").value;
      var hasId := Membership(graph, "id");
      hasId.None? || (hasId.value && !graph.Obj?)))
  }

  /** `framed['@graph']` if the framed document has it, else `[]`. */
  function Extract(framed: Fields): (r: Json)
    ensures HasKey(framed, "@graph") ==> Some(r) == Get(framed, "@graph")
    ensures !HasKey(framed, "@graph") ==> r == Arr([])
  {
    if HasKey(framed, "@graph") then Get(framed, "@graph").value else Arr([])
  }

  /**
   * `frame_results(resp, owl_class_uri, owl_resource_iri)` on the context
   * `ctx`: the outcome and the context the engine holds afterwards.
   */
  function FrameResults(p: Processor, resp: string, ctx: Context, rdfType: string, id: Option<string>): (Framed, Context)
  {
    match p.parse(resp)
    case None => (Items(Arr([])), ctx)
    case Some(doc) =>
      if !HasLength(doc) then (Raised, ctx)
      else match p.expand(doc)
      case None => (Raised, ctx)
      case Some(expanded) =>
        var normal := NormaliseContext(ctx);
        if CleanUpRaises(doc) then (Raised, normal)
        else
          var request := Obj([("@graph", expanded), ("@context", Obj(normal))]);
          match p.frame(request, Frame(normal, rdfType, id))
          case None => (Raised, normal)
          case Some(framed) => (Items(Extract(framed)), normal)
  }

  /** The frame `frame_results` hands to the framer, when it gets that far. */
  function FrameSent(ctx: Context, rdfType: string, id: Option<string>): Frame {
    Frame(NormaliseContext(ctx), rdfType, id)
  }

  /**
   * The context afterwards is the old one when the answer could not be
   * parsed, measured or expanded, and the normalised one from then on;
   * an unparsable answer is an empty list.
   */
  lemma FrameResultsContext(p: Processor, resp: string, ctx: Context, rdfType: string, id: Option<string>)
    ensures var (out, after) := FrameResults(p, resp, ctx, rdfType, id);
            (after == ctx || after == NormaliseContext(ctx)) &&
            (p.parse(resp).None? ==> out == Items(Arr([])) && after == ctx) &&
            ((p.parse(resp).Some? && HasLength(p.parse(resp).value) && p.expand(p.parse(resp).value).Some?) ==>
               after == NormaliseContext(ctx))
  {
  }

  /**
   * A list of resources comes back only when every step succeeded: the
   * frame asked for the class, carried `@id` exactly when an IRI was given,
   * and the items are the framed `@graph` (or `[]` without one).
   */
  lemma FrameResultsItems(p: Processor, resp: string, ctx: Context, rdfType: string, id: Option<string>)
    requires FrameResults(p, resp, ctx, rdfType, id).0.Items?
    requires p.parse(resp).Some?
    ensures var doc := p.parse(resp).value;
            var normal := NormaliseContext(ctx);
            HasLength(doc) && p.expand(doc).Some? && !CleanUpRaises(doc) &&
            var request := Obj([("@graph", p.expand(doc).value), ("@context", Obj(normal))]);
            var sent := FrameSent(ctx, rdfType, id);
            (sent.id.Some? <==> id.Some?) &&
            p.frame(request, sent).Some? &&
            FrameResults(p, resp, ctx, rdfType, id).0.items == Extract(p.frame(request, sent).value)
  {
    var doc := p.parse(resp).value;
    assert HasLength(doc) && p.expand(doc).Some?;
    var normal := NormaliseContext(ctx);
    assert !CleanUpRaises(doc);
    var request := Obj([("@graph", p.expand(doc).value), ("@context", Obj(normal))]);
    assert p.frame(request, Frame(normal, rdfType, id)).Some?;
  }

  /** An answer whose `@graph` is a list holding the string `id` makes the clean-up raise. */
  lemma GraphListWithIdRaises(graph: seq<Json>, rest: Fields)
    requires Str("id") in graph
    ensures CleanUpRaises(Obj([("@graph", Arr(graph))] + rest))
  {
  }

  /** An answer whose `@graph` is a dict never makes the clean-up raise. */
  lemma GraphDictIsSafe(graph: Fields, rest: Fields)
    ensures !CleanUpRaises(Obj([("@graph", Obj(graph))] + rest))
  {
  }
}
