# Pokémon catalogue front end — a Dafny model

This project models the client-side logic of a small Next.js Pokémon catalogue.
It proves properties of that model. The modelled logic is:

- **List page** (`PokemonList.tsx`). The list holds the records fetched so far. It
  derives a filtered view by name and by type, and it computes the `hasMore` flag.
  A fetched page is merged into the store, skipping ids already stored. `page` is
  reset when a filter changes and advanced on scroll.
- **Filter panel** (`PokemonFilters.tsx`). The panel toggles type ids and produces
  the filter records that its handlers pass upwards.
- **Evolution panel** (`PokemonEvolutions.tsx`). The panel resolves the evolution
  chain, first through a hard-coded table and otherwise through the records'
  cross-references. It decides when to show "does not evolve". Its card picks a type
  gradient and pads the dex number.
- **Request building** (`pokemonService.ts`). `buildUrl` turns a parameter record into
  an `application/x-www-form-urlencoded` query, following section 5.2 of the WHATWG
  URL Standard. `getPokemonList` builds its parameter record, and the by-id URL is
  built too.
- **Stats panel** (`PokemonStats.tsx`). The panel shows six stats, using fallbacks
  between two field spellings, and the total of all fields.

The project has these modules, one per source file:

- `PokemonList`, in `list.dfy`;
- `PokemonFilters`, in `filters.dfy`;
- `PokemonEvolutions`, in `evolutions.dfy`;
- `PokemonService`, in `service.dfy`;
- `PokemonStats`, in `stats.dfy`;
- `PokemonTypes`, in `types.dfy`, which holds the record shapes of `types/pokemon.ts`.

Three helper modules support them:

- `Options` is the optional value. It stands for JavaScript's `undefined`/`null`.
- `Seqs` provides `Filter`, the subsequence relation and their lemmas.
- `Text` provides ASCII lower-casing, `includes`, decimal printing and parsing, and
  `padStart`.

Component state that the source changes through React setters is a class. Two
classes model it:

- `PokemonList.ListState`, with the fields `pokemons`, `filteredPokemons`, `filters`,
  `hasMore`, `isLoading` and `error`;
- `PokemonFilters.FilterPanel`, with the fields `selectedTypes`, `searchTerm` and
  `limitValue`.

Each effect and each handler is one method call. The loops are methods proved
against specification functions:

- `buildUrl` and the loops of `determineEvolutionChain`;
- the expressions (filters, merge, records, stats) are functions.

The remote lookup `getPokemonById` is a parameter `lookup: int -> Option<Pokemon>`.
`None` means the call threw. A response to `getPokemonList` is an `Option` of a
sequence, in the same way.

Paths in the table below are relative to the repository root of the front end
sources.

## Model

| member | source | states |
|---|---|---|
| PokemonList.ApplyFiltersIsOnePass | controle-react/src/components/PokemonList.tsx:50-70 | The name pass followed by the type pass selects exactly the records that pass both active filters, in one pass over the store. |
| PokemonList.ApplyFiltersSelects | controle-react/src/components/PokemonList.tsx:50-73 | The filtered view is an order-preserving subsequence of the store. A record is in it iff it is in the store, contains the lower-cased term in its lower-cased name when a non-empty name is set, and has a type id in the list when a non-empty `types` list is set. |
| PokemonList.InactiveFiltersKeepStore | controle-react/src/components/PokemonList.tsx:52-68 | An absent or empty name together with an absent or empty type list leaves the store as it is. |
| PokemonList.MergeAppendsNewIdsOnly | controle-react/src/components/PokemonList.tsx:94-101 | After a merge, the old store is a prefix of the new one. The appended part is the response entries whose id is not stored, in response order, and no stored id is appended again. |
| PokemonList.MergeGrowth | controle-react/src/components/PokemonList.tsx:94-101 | The store grows by the response length minus the number of response entries whose id is already stored. |
| PokemonList.MergeOfKnownPage | controle-react/src/components/PokemonList.tsx:94-101 | A page whose ids are all stored leaves the store unchanged. |
| PokemonList.MergeKeepsIdsUnique | controle-react/src/components/PokemonList.tsx:94-101 | Merging a page with distinct ids into a store with distinct ids gives a store with distinct ids. |
| PokemonList.PaginationFilters | controle-react/src/components/PokemonList.tsx:84-89 | The page request drops `name`, `types` and `typeId` and keeps `page` and `limit`. |
| PokemonList.PageRequestQuery | controle-react/src/components/PokemonList.tsx:84-92 | The query of a page request is exactly `limit` (50 when undefined) followed by `page`. |
| PokemonList.ListState.constructor | controle-react/src/components/PokemonList.tsx:15-23 | The initial state: store and view are the server-fetched list, the filters are `{page: 0, limit: 50}`, `hasMore` holds and there is no error. |
| PokemonList.ListState.ApplyFilterEffect | controle-react/src/components/PokemonList.tsx:50-74 | The view becomes the filtered store, still a subsequence of it. `hasMore` becomes "view length ≥ limit", where an absent or zero limit counts as 50. |
| PokemonList.ListState.BeginPageFetch | controle-react/src/components/PokemonList.tsx:78-92 | Nothing is requested when `page` is 0. Otherwise loading starts, with the current filters minus name and type filters. |
| PokemonList.ListState.CompletePageFetch | controle-react/src/components/PokemonList.tsx:92-111 | On success, the store becomes the merge of the page, `hasMore` becomes "page length == limit" and the error is cleared. On failure, the store is unchanged and the error message is set. Loading ends either way, and distinct ids stay distinct. |
| PokemonList.ListState.HandleFilterChange | controle-react/src/components/PokemonList.tsx:117-122 | The filters become the new record with `page` set to 0, every other field copied. |
| PokemonList.ListState.OnLastCardVisible | controle-react/src/components/PokemonList.tsx:33-37 | When `hasMore` holds, `page` becomes (page or 0) + 1 and nothing else changes. Otherwise the filters are unchanged. |
| PokemonFilters.Toggle | controle-react/src/components/PokemonFilters.tsx:58-64 | The id is in the result iff it was absent. An absent id is appended at the end. A present id is removed, leaving a subsequence with every other id's count unchanged. |
| PokemonFilters.ToggleTwiceRestores | controle-react/src/components/PokemonFilters.tsx:58-64 | Toggling an absent id twice restores the list. |
| PokemonFilters.ToggleKeepsNoDuplicates | controle-react/src/components/PokemonFilters.tsx:58-64 | A selection without duplicates has none after a toggle. |
| PokemonFilters.TypeChange | controle-react/src/components/PokemonFilters.tsx:69-74 | `typeId` is undefined and `page` is 0. `types` is undefined iff the new selection is empty, and otherwise it is that selection. Name and limit are unchanged. |
| PokemonFilters.NameChange | controle-react/src/components/PokemonFilters.tsx:43-48 | The name is undefined iff the new text is empty, and otherwise it is that text. `page` is 0 and the other fields are unchanged. |
| PokemonFilters.LimitChange | controle-react/src/components/PokemonFilters.tsx:85-89 | The limit is set and `page` is 0. The other fields are unchanged. |
| PokemonFilters.ClearedFilters | controle-react/src/components/PokemonFilters.tsx:98-101 | The cleared record is `{limit: 50, page: 0}`, with no name, types or typeId. |
| PokemonFilters.FilterPanel.constructor | controle-react/src/components/PokemonFilters.tsx:14-16 | The panel starts from the record's types (or none), name (or "") and limit text (or "50"). |
| PokemonFilters.FilterPanel.HandleTypeChange | controle-react/src/components/PokemonFilters.tsx:55-78 | The selection is toggled, and the record sent is the type-change record for the new selection. |
| PokemonFilters.FilterPanel.HandleNameChange | controle-react/src/components/PokemonFilters.tsx:38-48 | The search text is stored, and the record sent is the name-change record. |
| PokemonFilters.FilterPanel.HandleLimitChange | controle-react/src/components/PokemonFilters.tsx:81-90 | The chosen option text is stored, and the record sent carries its parsed value as limit. |
| PokemonFilters.FilterPanel.HandleClearFilters | controle-react/src/components/PokemonFilters.tsx:93-102 | The inputs are reset to "", no types and "50", and the cleared record is sent. |
| PokemonFilters.LimitOptionsParse | controle-react/src/components/PokemonFilters.tsx:135-138 | Every page-size option parses to one of 10, 20, 50 or 100. |
| PokemonEvolutions.FindChainIn | controle-react/src/components/PokemonEvolutions.tsx:44-46 | A chain is found only if it holds the dex number, and it is the first chain of the table that does, as `find` returns. None is found only if no table chain holds it. |
| PokemonEvolutions.IndexIn | controle-react/src/components/PokemonEvolutions.tsx:49 | The index is the first position of the dex number in the chain. |
| PokemonEvolutions.ResolveRange | controle-react/src/components/PokemonEvolutions.tsx:52-68 | The loop over an index range of the chain yields the successful lookups of that range, in order. |
| PokemonEvolutions.ResolvePreEvolutions | controle-react/src/components/PokemonEvolutions.tsx:73-106 | The fallback pre-evolution walk computes the fallback pre-evolutions. |
| PokemonEvolutions.ResolveRefs | controle-react/src/components/PokemonEvolutions.tsx:119-130 | The walk over further evolution references yields their successful lookups, in order. |
| PokemonEvolutions.ResolveEvolutions | controle-react/src/components/PokemonEvolutions.tsx:109-137 | The fallback evolution walk yields, per direct reference, the found record followed by its found evolutions. |
| PokemonEvolutions.DetermineEvolutionChain | controle-react/src/components/PokemonEvolutions.tsx:28-141 | For a dex number in a table chain, the result depends only on the chain and the lookups. The pre-evolutions are the lookups before the current position and the evolutions those after it. Any other record gets the fallback pre-evolutions, and its evolutions have the multiset of the fallback evolutions. |
| PokemonEvolutions.ResolveAllMembers | controle-react/src/components/PokemonEvolutions.tsx:52-68 | A record is resolved iff the lookup of one of the ids yields it. |
| PokemonEvolutions.FailedLookupIsOmitted | controle-react/src/components/PokemonEvolutions.tsx:52-68 | A failed lookup omits exactly that id, and the rest keep their relative order. |
| PokemonEvolutions.AllLookupsSucceed | controle-react/src/components/PokemonEvolutions.tsx:52-68 | When every lookup succeeds, the result is the lookups of the ids, one for one, in order. |
| PokemonEvolutions.KnownChainSplit | controle-react/src/components/PokemonEvolutions.tsx:44-69 | For any chain table in which the dex number is found and every lookup of its chain succeeds, the dex number is at the first index k holding it. The pre-evolutions are exactly the records of chain[0..k) and the evolutions exactly those of chain(k..], both in chain order. |
| PokemonEvolutions.ResolveKnownChain | controle-react/src/components/PokemonEvolutions.tsx:48-69 | The two loops over a found chain return the resolved entries before the current position and those after it, skipping failed lookups, as the table-path specification says. |
| PokemonEvolutions.MidChainExample | controle-react/src/components/PokemonEvolutions.tsx:33-69 | Dex number 2 has pre-evolution 1 and evolution 3. |
| PokemonEvolutions.RefId | controle-react/src/components/PokemonEvolutions.tsx:80 | The id used is `pokedexId` when it is present and non-zero. When `pokedexId` is missing or 0, it is `pokedexIdd` if that is non-zero. There is no id, and so no lookup, iff both are missing or 0. |
| PokemonEvolutions.FallbackPreEvolutions | controle-react/src/components/PokemonEvolutions.tsx:73-105 | There are at most two entries. The result is empty iff there is no usable reference or the first lookup fails. The last entry is the direct pre-evolution. There are two entries iff that record names a usable earlier id whose lookup succeeds, and then the first entry is that earlier record. |
| PokemonEvolutions.HopMembers | controle-react/src/components/PokemonEvolutions.tsx:113-131 | A record comes out of one direct reference iff it is the found direct evolution or a found evolution of it. |
| PokemonEvolutions.FallbackEvolutionMembers | controle-react/src/components/PokemonEvolutions.tsx:109-136 | A record is among the fallback evolutions iff one of the references reaches it (found directly, or found among the found record's own evolutions). |
| PokemonEvolutions.FailedHopDropsFurther | controle-react/src/components/PokemonEvolutions.tsx:114-134 | A failed direct lookup also drops that entry's further evolutions. |
| PokemonEvolutions.SiblingSurvivesFailure | controle-react/src/components/PokemonEvolutions.tsx:112-136 | When one of two evolution lookups fails, the other's record is still among the evolutions. |
| PokemonEvolutions.NoReferencesNoChain | controle-react/src/components/PokemonEvolutions.tsx:70-137 | A record outside the table with no references resolves to nothing on both sides. |
| PokemonEvolutions.ChainView | controle-react/src/components/PokemonEvolutions.tsx:168-201 | While loading, the placeholder is shown. Otherwise a non-empty error is shown as that error text. "Does not evolve" is shown iff the panel is not loading, has no error and both sequences are empty. The chain is shown, with exactly those sequences, iff either is non-empty. |
| PokemonEvolutions.TypeGradientAsWritten | controle-react/src/components/PokemonEvolutions.tsx:273-296 | The lookup as written agrees with the intended one on every name except the inherited `constructor` and `__proto__`; for `constructor` it yields no gradient of the table. |
| PokemonEvolutions.InheritedNameLeaksThrough | controle-react/src/components/PokemonEvolutions.tsx:295 | The type name "Constructor" yields a class string that is not a gradient. |
| PokemonEvolutions.TypeGradient | controle-react/src/components/PokemonEvolutions.tsx:273-296 | A known lower-cased name gets its table entry. A missing or unknown name gets the default gradient. The result is always a gradient of the table. |
| PokemonEvolutions.TypeGradientIgnoresCase | controle-react/src/components/PokemonEvolutions.tsx:295 | The gradient of a name equals that of its lower-cased form. |
| PokemonEvolutions.DexLabel | controle-react/src/components/PokemonEvolutions.tsx:333 | The label is exactly max(3, number of characters of the number) long, ends with the decimal dex number, and every character before it is '0'. |
| PokemonEvolutions.CardGradient | controle-react/src/components/PokemonEvolutions.tsx:308 | With no type or an empty first type name, the card gets the "normal" gradient. For any first type other than the inherited names `constructor` and `__proto__`, it gets that type's table entry or the default, always a gradient of the table. |
| PokemonEvolutions.DexLabelReadsBack | controle-react/src/components/PokemonEvolutions.tsx:333 | The zero-padded label still reads back as the dex number. |
| PokemonService.BuildUrl | controle-react/src/services/pokemonService.ts:6-29 | The loops produce the URL of the specification `UrlFor`: the endpoint, plus `?` and the serialized pairs when there are any. |
| PokemonService.QueryPairsConcat | controle-react/src/services/pokemonService.ts:12-20 | Pairs follow the entry order of the record. |
| PokemonService.ArrayEntryPairs | controle-react/src/services/pokemonService.ts:14-15 | An array of n items gives n pairs under its key, in array order, so an empty array gives none. |
| PokemonService.NullishEntriesContributeNothing | controle-react/src/services/pokemonService.ts:13 | Entries whose value is undefined or null give no pair. |
| PokemonService.NoQueryMeansBareEndpoint | controle-react/src/services/pokemonService.ts:7-25 | With no record, or with every value undefined or null, the URL is the endpoint. |
| PokemonService.QueryAfterSingleMark | controle-react/src/services/pokemonService.ts:22-24 | With any pair, the URL is the endpoint, one `?` and the serialized query, and the query holds no further `?`. |
| PokemonService.NoMarkInQuery | controle-react/src/services/pokemonService.ts:22 | The serialized query contains only encoded characters, `=` and `&`. |
| PokemonService.Serialize | controle-react/src/services/pokemonService.ts:22 | The serialized query is empty iff there are no pairs. |
| PokemonService.Encode | controle-react/src/services/pokemonService.ts:15-17 | An encoded name or value consists only of unreserved characters, `+` and `%`, and is no shorter than the input. |
| PokemonService.EncodeKeepsUnreserved | controle-react/src/services/pokemonService.ts:15-17 | Text made only of unreserved characters is sent unchanged. |
| PokemonService.EncodeChar | controle-react/src/services/pokemonService.ts:15-17 | Each code point becomes one or more encoded characters. |
| PokemonService.PercentBytes | controle-react/src/services/pokemonService.ts:15-17 | The escape of n bytes is 3n characters, all of them unreserved or `%`. |
| PokemonService.PercentBytesSpellsEachByte | controle-react/src/services/pokemonService.ts:15-17 | Byte i becomes `%` followed by its high and low upper-case hex digits, at positions 3i to 3i + 2. |
| PokemonService.Utf8 | controle-react/src/services/pokemonService.ts:15-17 | A code point encodes to one to four bytes, and an ASCII one to itself. |
| PokemonService.DecodeEncode | controle-react/src/services/pokemonService.ts:15-17 | Percent-decoding undoes the encoding of ASCII text. |
| PokemonService.ParseSerialize | controle-react/src/services/pokemonService.ts:10-22 | Parsing a serialized query gives back the pairs that were serialized, for ASCII names and values. |
| PokemonService.ListParams | controle-react/src/services/pokemonService.ts:35-43 | `limit` comes first, defaulting to 50 when undefined. `page`, `typeId`, `types` and `name` are present iff defined. No value is undefined or null, and the keys follow the order limit, page, typeId, types, name. Each entry carries the filter's own value: `page` and `typeId` as numbers, `types` as the array of its ids and `name` as the text. |
| PokemonService.ListUrl | controle-react/src/services/pokemonService.ts:35-45 | The list URL always has a query, and the query opens with `limit=` and the limit in decimal (50 when undefined). |
| PokemonService.PageZeroIsSent | controle-react/src/services/pokemonService.ts:35-45 | A page of 0 is sent as `page=0`. |
| PokemonService.ByIdUrl | controle-react/src/services/pokemonService.ts:76 | The by-id URL starts with `/api/pokemons/`, and the rest is the id in canonical decimal: no leading zero, and a minus sign only before a non-zero magnitude. |
| PokemonService.ByIdUrlRoundTrip | controle-react/src/services/pokemonService.ts:76 | The text after the prefix reads back as the id, and it is the only canonical text that does, so the URL spells the id exactly as `String(id)` does. |
| Text.CanonicalIntIsIntToString | controle-react/src/services/pokemonService.ts:76 | A canonical integer text that reads back as `n` is exactly `String(n)`, the spelling the template literal produces. |
| PokemonStats.Fallback | controle-react/src/components/PokemonStats.tsx:18-23 | A non-zero primary field wins. A non-zero result comes from one of the two fields. The result is 0 iff neither field is present and non-zero. |
| PokemonStats.DisplayedStats | controle-react/src/components/PokemonStats.tsx:12-27 | There are exactly six rows, HP, Attack, Defense, Special Attack, Special Defense and Speed, with their fields, and the two special rows use the fallback. |
| PokemonStats.TotalOfFields | controle-react/src/components/PokemonStats.tsx:65 | The total is the sum of every field present in the stats record. |
| PokemonStats.TotalMatchesDisplayed | controle-react/src/components/PokemonStats.tsx:65 | When each special stat arrives under exactly one name, the total equals the sum of the six displayed values. |
| PokemonStats.TotalCountsBothNames | controle-react/src/components/PokemonStats.tsx:65 | When special attack arrives under both names, the total counts both while the panel shows one. |

## Left out

- Network I/O. The `fetch` calls, their response checks and logging, the API proxy
  routes and the server-side fetch of the home page are all left out. Remote calls
  are parameters, and a throw is `None`.
- React scheduling. Render order, re-renders and batching of state updates are not
  modelled. Each effect and handler is an explicit method call on the component's
  state.
- The IntersectionObserver wiring and the `isLoading` guard of the ref callback.
  `OnLastCardVisible` is the observer's callback.
- The race between an in-flight page fetch and a filter change. The fetch is split
  into `BeginPageFetch` and `CompletePageFetch`, and `CompletePageFetch` takes the
  request whose limit it compares with.
- The 500 ms `setTimeout` in the name handler. `HandleNameChange` returns the record
  the delayed callback sends.
- The type list fetch of the filter panel and its loading and error state.
- PokemonFilters.FilterPanel.HandleLimitChange: requires the chosen text to be one
  of the selector's options, because the select element offers no other value.
  `parseInt` of arbitrary text is not modelled.
- PokemonEvolutions.DetermineEvolutionChain: the fallback evolutions are stated as a
  multiset only. The pushes happen in `Promise.all` callbacks, so their order
  depends on response timing.
- The outer `catch` of the evolution effect, which sets "Failed to load evolution
  chain". In the model every lookup failure is caught inside the walk, so that
  branch cannot be reached. `ChainView` still takes the error as input.
- The effect that stores the resolved chain and the loading flag around it.
- Floating-point bar widths of the stats panel.
- PokemonStats.TotalOfFields: `Object.values` order depends on the order of the
  keys in the received JSON. The model sums the fields in declaration order, and
  the sum does not depend on the order.
- Case mapping is ASCII only. `toLowerCase` on other letters is not modelled.
- PokemonService.ParseSerialize: the round trip is proved for ASCII names and
  values. The decoder reads one byte per escape and does not reassemble multi-byte
  UTF-8 sequences.
- JavaScript numbers are unbounded integers. Fractions, `NaN` and the float
  formatting of `toString` are not modelled.
- Record fields that no modelled operation reads are not part of the record type:
  `slug`, the generation fields and the resistance fields.
- All JSX, `console.log` output, `PokemonCard.tsx`, the layout, the detail page and
  the Next.js configuration.

## Findings

| source | as written | input that shows it | evidently intended | confidence | as-written member | corrected member |
|---|---|---|---|---|---|---|
| controle-react/src/components/PokemonEvolutions.tsx:295 | The gradient is looked up in a plain object literal, so inherited members are found too. | A type named "Constructor" (lower-cased to `constructor`) finds `Object` itself, whose text `function Object() { [native code] }` lands in the class string; `__proto__` gives `[object Object]`. | Only the table's own entries; any other name falls back to the default gradient. | not executed | PokemonEvolutions.TypeGradientAsWritten | PokemonEvolutions.TypeGradient |
