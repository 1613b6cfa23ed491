# SearchWithModifiers core, modelled in Dafny

The model covers the query side of the SearchWithModifiers search box. That
side of the code does four things:

- A query string is split into tokens. A token is a `(modifier, value)` pair
  over a config map: `tokenize` and the `Token` class of `src/utils/token.ts`.
  `src/models/token.ts` is the same class without `tokenize`, differing in its
  decorators.
- A token's typed value is matched against the hint list of its config entry.
  That matcher is `ListSource` in `src/utils/list-source.ts`.
- The config map is built from the page's modifier descriptors:
  `SearchContext.config` and `queryScope` in `src/utils/search-context.ts`,
  with an identical copy in `src/models/search-context.ts`.
- The SearchWithModifiers component turns the active token's hints into a
  list of titled suggestion sections and decides whether to show it. It also
  keeps the typed query: `hintList`, `showModifierList`, `query`.

Modules, in dependency order. The first three are helper modules that
stand for no source file:

- `Wrappers`: `Option` (JavaScript `undefined`/`null` versus a value) and
  `Outcome`. `Outcome` is either a returned value or the TypeError that
  JavaScript raises when a getter dereferences a missing config entry.
- `Strings`, `Seqs`: the JavaScript built-ins the core calls:
  - string methods: `toLowerCase`, `substr`, `indexOf(..) === 0`;
  - array methods: `find`, `some`, `indexOf`, `slice`.

The other modules follow the source files:

- `Types`: the hint, config entry and config map shapes of `src/utils/types.ts`.
  It also has the `Helpers` record for `normalized`, `unquoted` and `getMatch`
  from `utils/search`. That module is not part of this model, so those three
  are parameters, and every property is proved for all of them.
- `ListSource`: `serialize`, `deserialize`, `validate`, `getHints`.
- `Context`: the config registry builder, and a `SearchContext` class whose
  `Config` method fills the map in a loop, as the source does.
- `Tokens`: the `Token` class. Its fields are `var`s. The getters are functions
  reading the object. The `fullText` setter, the `model` setter and
  `autoComplete` are methods that modify it. `trigger('modelAssigned')` is
  recorded in an `events` log.
- `Tokenizer`: the scanner.
  - `Step` is the pure step function; it gives one iteration of the source's
    loop. `Run` and `Lex` build on it.
  - `Tokenize` is the imperative scanner. It allocates `Token` objects and is
    proved to produce exactly `Lex`.
- `TokenizerExamples`: concrete scans, worked character by character.
- `Component`:
  - the `SearchWithModifiers` class, with `query`, `hintList` (a loop filling
    the section dictionary) and `showModifierList`;
  - `Group`/`Arrange`/`Suggestions`, the functions that specify them.

Behaviours of the code that the model makes explicit:

- **Token getters throw without an entry.** `content`, `hints`,
  `sectionTitle`, `isValueValid`, `firstHint`, `subHint`, `hint` and `model`
  dereference `this.config`. On a token without a config entry they throw a
  TypeError, and so do `hintList` and `showModifierList` on such a token.
- **A space that ends a token starts the next one.** With the keys `#` and
  `is:`, `#bug is:open` scans to three tokens: `("#","bug")`, `(""," ")`,
  `("is:","open")`. The ending space is appended after the reset, so it is
  a token of its own (`TokenizerExamples.HashThenIs`). Without keys,
  `hello world` scans to `hello`, `" "`, `world` (`TokenizerExamples.TwoWords`).
  For all inputs, `Tokenizer.SpaceRuns` states that every token but the last
  whose value ends in a space holds only spaces.
- **After a modifier other than `#`, leading spaces stay in the value.** A
  space joins the value while the value is all spaces, and ends the token
  once it holds something else (`Tokenizer.ModifierSpace`).
- **A quote opens quoted text only in the default mode.** Text between
  quotes joins one token when the opening quote is read in the default
  mode (`Tokenizer.QuoteContainment`). The whitespace mode does not look at
  quotes, so `a "b c"` is split inside the quotes
  (`TokenizerExamples.QuoteAfterSpace`).
- **The `fullText` setter scans the entry's property names.** It
  enumerates the property names of the config ENTRY (`content`,
  `defaultHint`, `sectionTitle`, `type`), not the keys of the config map. The
  entry therefore carries its property names in enumeration order.

## Model

| member | source | states |
|---|---|---|
| Wrappers.Get | src/utils/token.ts:14 | the lookup is present exactly when the key is in the map, and then holds the map's entry |
| Strings.Lower | src/utils/token.ts:14 | same length, every character lower-cased, ASCII letters only |
| Strings.Substr | src/utils/token.ts:52 | within bounds the prefix plus the result is the string; past the end the result is empty |
| Seqs.IndexOf | src/utils/list-source.ts:25 | -1 exactly when the element is absent, else a position holding it with no earlier occurrence |
| Seqs.Find | src/utils/list-source.ts:10 | a found element satisfies the predicate and no earlier element does; undefined means none does |
| Seqs.Any | src/utils/list-source.ts:14 | true exactly when some element satisfies the predicate |
| Seqs.Take | src/ui/components/SearchWithModifiers/component.ts:68 | `slice(0, n)` for n >= 0: the first min(n, len) elements |
| ListSource.Serialize | src/utils/list-source.ts:5-7 | a structured hint serialises to its value, a plain string to the empty string |
| ListSource.Deserialize | src/utils/list-source.ts:9-11 | without a list the label itself; with one, the first item owning that value, or undefined when no item does |
| ListSource.Validate | src/utils/list-source.ts:13-15 | without a list, the text is non-empty; with one, some item's normalised serialisation equals the normalised text (both directions) |
| ListSource.ValidateSerialized | src/utils/list-source.ts:13-15 | every member of a list validates against that list under its own serialisation |
| ListSource.FilterSelfMembers | src/utils/list-source.ts:24-27 | the filter keeps a hint exactly when it is structured and its value differs from the typed text |
| ListSource.FilterSelfDistinct | src/utils/list-source.ts:25 | the first-occurrence test leaves no duplicates |
| ListSource.FilterSelfOrder | src/utils/list-source.ts:24-27 | the kept hints are a subsequence of the input, in its order |
| ListSource.FilterSelfSpec | src/utils/list-source.ts:22-27 | membership, no duplicates and order together |
| ListSource.FirstOccurrence | src/utils/list-source.ts:25 | `indexOf(x) === index` exactly when the element does not occur earlier |
| ListSource.GetHints | src/utils/list-source.ts:17-31 | empty for an absent or empty list; every result is structured with a value other than the typed text; no duplicates |
| ListSource.GetHintsSpec | src/utils/list-source.ts:17-31 | the result is an ordered subsequence of label matches then value matches, holding exactly their structured hints whose value is not the typed text, label matches first |
| ListSource.LabelMatchesFirst | src/utils/list-source.ts:22-23 | kept hints that occur in the first list of the concatenation precede all the others |
| Context.KeyOf | src/utils/search-context.ts:20 | `#` keeps its key, every other modifier gets a trailing colon |
| Context.EntryOf | src/utils/search-context.ts:21-26 | the entry holds the descriptor's values, hint and title, with type `list` |
| Context.BuildConfigKeys | src/utils/search-context.ts:17-29 | the map's keys are exactly the descriptors' keys |
| Context.BuildConfigLastWins | src/utils/search-context.ts:17-29 | each key holds the entry of the last descriptor with that key |
| Context.SearchContext.QueryScope | src/utils/search-context.ts:15 | the scope as set |
| Context.SearchContext.Config | src/utils/search-context.ts:17-29 | the loop yields the registry `BuildConfig` specifies, empty for no descriptors, keyed by the descriptors' keys |
| Tokens.ChosenModifier | src/utils/token.ts:40-50 | `+` for text starting with `+`; otherwise the first property name that prefixes the text; none when no name does or there is no entry |
| Tokens.CompletionText | src/utils/token.ts:78 | a plain hint completes with itself, a structured one with its value |
| Tokens.Token.constructor | src/utils/token.ts:126-131 | the fields are the arguments, and no event has been announced |
| Tokens.Token.Config | src/utils/token.ts:12-19 | present exactly when the lower-cased modifier is a key, or, without a modifier, when the value is neither empty nor one space and `_default` is a key; then that entry |
| Tokens.Token.Type | src/utils/token.ts:21-23 | never empty: the entry's type tag, `space` without an entry or with an empty tag |
| Tokens.Token.SectionTitle | src/utils/token.ts:25-27 | throws exactly when there is no entry, else the entry's title |
| Tokens.Token.Content | src/utils/token.ts:29-31 | throws exactly when there is no entry, else the entry's content |
| Tokens.Token.FullText | src/utils/token.ts:33-35 | the modifier followed by the value |
| Tokens.Token.Length | src/utils/token.ts:61-63 | the modifier's length plus the value's |
| Tokens.Token.IsValueValid | src/utils/token.ts:122-124 | throws exactly without an entry; else true exactly when some content item's normalised serialisation equals the normalised value |
| Tokens.Token.Hints | src/utils/token.ts:89-92 | throws exactly without an entry; else duplicate-free structured hints whose value differs from the token's, none for empty content |
| Tokens.Token.FirstHint | src/utils/token.ts:65-70 | the first hint whose normalised text starts with the normalised value, none when no hint does, the first hint when the value normalises to empty |
| Tokens.Token.SubHint | src/utils/token.ts:72-83 | throws exactly without an entry; none for an empty value, for a valid value closed by a quote, and when there is no first hint |
| Tokens.SubHintCompletion | src/utils/token.ts:72-83 | a sub-hint exists exactly when the value is non-empty, not a valid quoted value, and its normalised lower-cased form starts the first hint's normalised text; it is then the unquoted text past the typed length |
| Tokens.Token.Hint | src/utils/token.ts:85-87 | the sub-hint once something is typed, the entry's default hint before; throws without an entry |
| Tokens.Token.Model | src/utils/token.ts:94-100 | throws exactly without an entry; none unless the value is valid; for a valid value, present exactly when some content item owns the normalised value, and then the first such item |
| Tokens.Token.SetFullText | src/utils/token.ts:37-59 | with a chosen modifier, the token becomes that modifier and the rest of the text, so `fullText` is the text; otherwise only a non-empty text replaces the value; nothing changes without an entry |
| Tokens.Token.SetModel | src/utils/token.ts:102-116 | a plain hint sets the value to the empty serialisation; a structured one goes through the `fullText` setter when flagged, else sets the value; `modelAssigned` is announced exactly once |
| Tokens.Token.AutoComplete | src/utils/token.ts:133-147 | true exactly when there is a truthy first hint and a non-empty sub-hint; the token then takes the hint's value, through the `fullText` setter for a modifier hint; false leaves it unchanged |
| Tokenizer.RunGood | src/utils/token.ts:158-216 | after any prefix, the pushed tokens and the pending pair spell the prefix, pushed tokens are non-empty, and every modifier is a key once lower-cased |
| Tokenizer.LexSpec | src/utils/token.ts:150-217 | the lexemes spell the text exactly, none is empty, every modifier is a key once lower-cased, empty text gives none |
| Tokenizer.SingleCharModifiers | src/utils/token.ts:191-194 | a one-character modifier after the first token can only be a one-space key |
| Tokenizer.ModifierSpace | src/utils/token.ts:172-179 | after a committed modifier, a space ends the token exactly when the value holds a non-space or the modifier is `#`, and otherwise joins the value |
| Tokenizer.RunSpaceShape | src/utils/token.ts:158-216 | after any prefix, every pushed value ending in a space is all spaces, as is the pending value in the whitespace mode |
| Tokenizer.SpaceRuns | src/utils/token.ts:173-209 | every lexeme but the last whose value ends in a space holds only spaces |
| Tokenizer.RunAppend | src/utils/token.ts:158 | scanning `a + b` is scanning `a`, then `b` from where it stopped |
| Tokenizer.QuotedRun | src/utils/token.ts:211-214 | inside a quote, characters other than a quote are appended verbatim, so an unmatched quote runs to the end |
| Tokenizer.ModifierRun | src/utils/token.ts:172-179 | once a modifier is committed, characters other than space and quote extend the value |
| Tokenizer.BareRun | src/utils/token.ts:181-194 | without a modifier, characters other than space and quote extend the value while no prefix is a key |
| Tokenizer.QuoteContainment | src/utils/token.ts:170 | a quoted segment opened in the default mode ends no token, and the value ends with the segment and its closing quote |
| Tokenizer.FullTextsConcat | src/utils/token.ts:33-35 | the tokens' `fullText`s spell the lexemes they hold |
| Tokenizer.Emit | src/utils/token.ts:163 | one fresh token holding the pair is appended, different from every earlier one, the earlier ones unchanged |
| Tokenizer.Finish | src/utils/token.ts:161-165 | at the end of the text the pending pair, when either part is non-empty, is pushed as one fresh token, which is what `Flush` specifies; the tokens stay distinct |
| Tokenizer.Advance | src/utils/token.ts:168-215 | one loop iteration on the scanner's variables does what `Step` specifies, pushing at most one fresh token and keeping the tokens distinct |
| Tokenizer.Tokenize | src/utils/token.ts:150-217 | the tokens hold exactly the lexemes of `Lex` over the config map, no events announced, and their `fullText`s spell the text; empty text gives none; every token is a new object, no two the same |
| TokenizerExamples.HashThenIs | src/utils/token.ts:173-179 | `#bug is:open` over `#` and `is:` gives `#bug`, a lone space, `is:open` |
| TokenizerExamples.TwoWords | src/utils/token.ts:181-189 | `hello world` with no keys gives `hello`, a lone space, `world` |
| TokenizerExamples.QuoteAfterSpace | src/utils/token.ts:198-209 | `a "b c"` with no keys is split inside the quotes |
| Component.InSectionSpec | src/ui/components/SearchWithModifiers/component.ts:53 | a hint is in a section's list exactly when it is one of the hints filed there |
| Component.Group | src/ui/components/SearchWithModifiers/component.ts:52-62 | the dictionary's keys are exactly its recorded key order, with no key twice |
| Component.GroupKeys | src/ui/components/SearchWithModifiers/component.ts:52-62 | a section exists exactly when some hint is filed under it |
| Component.GroupLists | src/ui/components/SearchWithModifiers/component.ts:52-62 | each section holds the first `limit` of its hints (at least one) in their original order |
| Component.GroupOrder | src/ui/components/SearchWithModifiers/component.ts:52-64 | `Object.keys` lists the sections in order of their first hints |
| Component.GroupSections | src/ui/components/SearchWithModifiers/component.ts:52-64 | the listed sections are exactly the sections of the hints |
| Component.Arrange | src/ui/components/SearchWithModifiers/component.ts:66-70 | one entry per section in key order; a lone section keeps its list, several are each cut to five |
| Component.ArrangedLists | src/ui/components/SearchWithModifiers/component.ts:52-70 | each shown section is non-empty and holds the leading hints of that section, as many as the limit and the cut to five allow |
| Component.Examples | src/ui/components/SearchWithModifiers/component.ts:75-84 | the `How to Search` section holds one searching modifier hint per sample query, in order |
| Component.SuggestionsLayout | src/ui/components/SearchWithModifiers/component.ts:72-86 | a blank query puts the example section first, with the arranged sections after it |
| Component.SuggestionsSpec | src/ui/components/SearchWithModifiers/component.ts:45-89 | the whole suggestion list: examples first when blank, then each distinct section once in order of first appearance, each with its leading hints |
| Component.SearchWithModifiers.constructor | src/ui/components/SearchWithModifiers/component.ts:91-93 | no active token, no typed query, no sample queries |
| Component.SearchWithModifiers.Query | src/ui/components/SearchWithModifiers/component.ts:24-27 | the typed query once non-empty, else the query argument |
| Component.SearchWithModifiers.SetQuery | src/ui/components/SearchWithModifiers/component.ts:29-31 | the typed query becomes the string, which the getter then returns unless it is empty |
| Component.SearchWithModifiers.HintListOf | src/ui/components/SearchWithModifiers/component.ts:45-89 | no sections without an active token; throws exactly when the token has no entry |
| Component.SearchWithModifiers.HintList | src/ui/components/SearchWithModifiers/component.ts:45-89 | the dictionary-filling loop yields exactly `HintListOf` |
| Component.SearchWithModifiers.ShowModifierList | src/ui/components/SearchWithModifiers/component.ts:38-43 | throws exactly when `hintList` does |
| Component.ShowModifierListSpec | src/ui/components/SearchWithModifiers/component.ts:38-43 | shown exactly for an active token with an entry whose type is not `space`, when it has hints or the query is blank; never without a token |

`IsQueryBlank` (component.ts:96-99), `Limit` and `Quota` (component.ts:51,
55-56) and `NormalizedValue` (token.ts:118-120) are plain definitions used by
the members above. The same goes for the step function `Step`, `Run`, `Flush`
and `Lex` (token.ts:158-216), and `Tokenizer.Push`, the push-and-reset of
the pending pair (token.ts:174-176, 183-185, 201-203). Further plain
definitions:
- `Component.SectionOf` (component.ts:53): the section a hint is filed under.
  An absent `sectionTitle` gives the property key `"undefined"`.
- `Component.SampleHint` (component.ts:75-83): the hint that one example query
  offers.
- `ListSource.OwnsValue` (list-source.ts:10): the `find` predicate of
  `deserialize`.
- `ListSource.Keep` (list-source.ts:25-26): the `filter` predicate of
  `getHints`.
- `ListSource.FilterSelf` (list-source.ts:24-27): that filter, applied to the
  first `n` items.
- `Tokens.MatchesTyped` (token.ts:67-69): the `find` predicate of `firstHint`.
- `Types.Truthy` (token.ts:137): the `hint &&` test.
- `Context.EntryPropertyNames` (search-context.ts:21-26): the order of the
  entry literal's keys, which `for…in` follows.

The members of `Context` and `Tokens` model
both copies of their source: `src/models/search-context.ts:26-40` and
`src/models/token.ts`.

## Left out

- The SearchBox, ListKeyboardNavigator and SearchModifiers components, `index.ts`, `next.ts` and the component test: they are DOM, keyboard and rendering code outside the core.
- `tokenConfig` and `prepareConfig`: `prepareConfig` lives in `utils/search`, whose code is not part of this model.
- `didSelectModifier`, `valueDidChange`, `updateActiveToken`, `performSearch` and `lastQuery`: they are event plumbing around `next` (a deferred callback) and contain no logic beyond assignments.
- `isHintListEmpty`: it is folded into `ShowModifierList`, which tests the list for emptiness.
- `@tracked` reactivity and the Eventable subscribe/unsubscribe machinery: only what `trigger` announces is modelled, as the token's `events` log.
- `normalized`, `unquoted` and `getMatch`: their code is not part of this model. They are arbitrary functions passed as parameters.
- Strings.Lower: lower-cases ASCII letters only, not full Unicode case mapping.
- Tokenizer.Step: a key is looked up as a real key of the config map, so inherited `Object.prototype` members (`constructor`, `__proto__`, `toString` in any case) are not promoted to modifiers as they are by `configMap[value.toLowerCase()] !== undefined`.
- Tokens.Token.Config: for the same reason a modifier such as `constructor` gets no entry, where `this.configMap[...]` returns the inherited member.
- Tokens.Token.Length: a `char` is a Unicode scalar value, while JavaScript's `length`, `text[i]` and `substr` count UTF-16 code units, so lengths, indices and the `subHint` cut differ for characters outside the Basic Multilingual Plane.
- ListSource.FilterSelf: keeps hints by structural equality, so two equal but distinct hint objects count as one, where JavaScript's `indexOf` compares object identity.
- Component.Group: the dictionary is a map with an insertion-order key list, so `Object.keys`' rule that integer-like keys come first, and inherited keys such as `constructor`, are not modelled.
- Component.Limit: `args.limit` is an optional integer, so a non-numeric or `NaN` limit is not modelled.
- ListSource.Serialize: a hint is always defined, so `serialize(undefined)` is not modelled.
- Concrete `firstHint`, `subHint` and `autoComplete` outcomes for particular implementations of `normalized` and `getMatch`: those helpers are parameters, so only properties that hold for all of them are proved.
