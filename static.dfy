/** The names the engine shares with the generated REST API, its query files and its context files. */
module Static {

  // The four standard query kinds.
  const QueryTypeGetAll := "get_all"
  const QueryTypeGetAllUser := "get_all_user"
  const QueryTypeGetOne := "get_one"
  const QueryTypeGetOneUser := "get_one_user"
  const QueriesTypes := [QueryTypeGetAll, QueryTypeGetAllUser, QueryTypeGetOne, QueryTypeGetOneUser]

  // Request parameters coming from the API.
  const IdKey := "id"
  const UsernameKey := "username"
  const LabelKey := "label"
  const PageKey := "page"
  const PerPageKey := "per_page"
  const CustomQueryName := "custom_query_name"
  const SkipIdFramingKey := "skip_id_framing"

  // Keys of the JSON-LD context documents.
  const ContextKey := "@context"
  const ContextIdKey := "id"
  const ContextTypeKey := "type"

  // Slots of the query templates.
  const SparqlQueryTypeVariable := "type"
  const SparqlGraphTypeVariable := "g"
  const SparqlIdTypeVariable := "resource"

  // Context files. The override file name is the class-context file name, so
  // the "override" context is always the class context as read from disk.
  const ContextFile := "context.json"
  const ContextClassFile := "context_class.json"
  const ContextOverwriteClassFile := "context_class.json"

  /** Directory holding the default query templates. */
  const DefaultDir := "_default_"

  /** Extension of a query template file. */
  const QueryFileExtension := ".rq"

  /** Embedding mode handed to the JSON-LD framer. */
  const EmbedOption := "@always"
}
