/** The shapes the core passes around (src/utils/types.ts) and the helpers of
    the `utils/search` module, whose code is not part of this model. */
module Types {

  import opened Wrappers

  /** A completion candidate: a bare string, or a structured `Modifier`
      record (its `label` field is `labelText` here, `label` being a keyword)
      whose optional flags are `false` when absent. */
  datatype Hint =
    | Plain(text: string)
    | Modifier(value: string, labelText: Option<string>, section: Option<string>,
               modifier: bool, fullText: bool, searchOnEnter: bool)

  /** JavaScript truthiness of a hint: only the empty plain string is falsy. */
  predicate Truthy(h: Hint) {
    h.Modifier? || h.text != ""
  }

  /** One entry of the config map. `propertyNames` is the order in which
      `for (k in entry)` enumerates the entry object's own property names. */
  datatype SearchContextConfig = SearchContextConfig(
    content: seq<Hint>,
    defaultHint: Option<string>,
    sectionTitle: Option<string>,
    typeTag: string,
    propertyNames: seq<string>)

  /** `ConfigMap`: modifier key to its config entry. */
  type ConfigMap = map<string, SearchContextConfig>

  /** The key that modifier-less tokens resolve to. */
  const DefaultKey: string := "_default"

  /** Which field `getMatch` compares against. */
  datatype MatchField = ByLabel | ByValue

  /** The helpers imported from `utils/search`; their code is not part of this
      model, so every operation that uses them takes them as a parameter and
      is proved for all of them. */
  datatype Helpers = Helpers(
    normalized: string -> string,
    unquoted: string -> string,
    getMatch: (string, seq<Hint>, MatchField) -> seq<Hint>)
}
