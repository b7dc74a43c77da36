/**
 * What the engine exchanges with the outside: the calls it makes to the
 * triple store, the libraries it hands documents to, and the replies it
 * gives back to the web layer. Every library call is a function; `None` (or
 * `false` for the store's update and delete calls) is a call that raises.
 */
module Remote {
  import opened Wrappers
  import opened Json
  import opened Routing

  /** A call made to the store: a SPARQL update (inserts) or a SPARQL query (reads and deletes). */
  datatype Call = Update(text: string) | Query(text: string)

  /**
   * The store and the RDF libraries.
   * - `bind`: `gquery.get_metadata` and `gquery.rewrite_query`: the template with the request arguments put in;
   * - `select`: a fresh `SPARQLConnector(endpoint).query(q)` serialised as JSON-LD text;
   * - `turtle`: rdflib's `Graph().parse` of a JSON-LD document (with the IRI prefix as base),
   *   the graph's namespaces and its Turtle serialisation;
   * - `update`: `self.sparql.update(q)` returned normally;
   * - `query`: `self.sparql.query(q)` returned normally.
   */
  datatype Store = Store(
    bind: (string, Args) -> Option<string>,
    select: string -> Option<string>,
    turtle: Json -> Option<(seq<(string, string)>, string)>,
    update: string -> bool,
    query: string -> bool)

  /**
   * What an operation gives back: the list of framed resources (`get_resource`
   * on success), a body with an HTTP status code, or an exception that
   * escapes the engine.
   */
  datatype Reply = Listing(items: Json) | Answer(body: Json, code: int) | Crash
}
