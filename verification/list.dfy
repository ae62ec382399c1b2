/** The list page of `components/PokemonList.tsx`: the working set of fetched
    records, the filtered view derived from it, the filter record, and the
    flags the page shows. Each React effect and handler is a method of
    `ListState`; the filter and the page merge are pure functions. */
module PokemonList {
  import opened Options
  import opened Seqs
  import opened Text
  import opened PokemonTypes
  import opened PokemonService

  const LoadMoreError: string := "Failed to load more Pokémon data. Please try again later."

  /** `filters.limit || 50`: an absent or zero limit counts as 50. */
  function EffectiveLimit(f: Filters): int {
    if f.limit.Some? && f.limit.value != 0 then f.limit.value else DefaultLimit
  }

  /** `if (filters.name)`: a name filter applies only when the name is non-empty. */
  predicate NameFilterActive(f: Filters) {
    f.name.Some? && f.name.value != ""
  }

  /** `if (filters.types && filters.types.length > 0)`. */
  predicate TypeFilterActive(f: Filters) {
    f.types.Some? && |f.types.value| > 0
  }

  /** The record's name contains the term, ignoring (ASCII) case. */
  predicate MatchesName(term: string, p: Pokemon) {
    Includes(Lower(p.name), Lower(term))
  }

  /** Some type of the record has its id in `ids`. */
  predicate HasAnyType(ids: seq<int>, p: Pokemon) {
    exists t :: t in p.types && t.id in ids
  }

  /** The record passes every active filter. */
  predicate Passes(f: Filters, p: Pokemon) {
    (NameFilterActive(f) ==> MatchesName(f.name.value, p)) &&
    (TypeFilterActive(f) ==> HasAnyType(f.types.value, p))
  }

  /** The filter effect: the name filter first, then the type filter, each
      only when active. */
  function ApplyFilters(store: seq<Pokemon>, f: Filters): seq<Pokemon> {
    var byName := if NameFilterActive(f) then Filter(store, (p: Pokemon) => MatchesName(f.name.value, p)) else store;
    if TypeFilterActive(f) then Filter(byName, (p: Pokemon) => HasAnyType(f.types.value, p)) else byName
  }

  /** The two filter passes select exactly what one pass by `Passes` selects. */
  lemma ApplyFiltersIsOnePass(store: seq<Pokemon>, f: Filters)
    ensures ApplyFilters(store, f) == Filter(store, (p: Pokemon) => Passes(f, p))
  {
    var all := (p: Pokemon) => Passes(f, p);
    if NameFilterActive(f) {
      var byName := (p: Pokemon) => MatchesName(f.name.value, p);
      if TypeFilterActive(f) {
        var byType := (p: Pokemon) => HasAnyType(f.types.value, p);
        FilterFilter(store, byName, byType, all);
      } else {
        FilterSame(store, byName, all);
      }
    } else if TypeFilterActive(f) {
      FilterSame(store, (p: Pokemon) => HasAnyType(f.types.value, p), all);
    } else {
      FilterKeepsAll(store, all);
    }
  }

  /** The filtered view is an order-preserving subsequence of the store that
      holds exactly the records passing every active filter: the name filter
      (case-insensitive containment) AND the type filter (any type id listed). */
  lemma ApplyFiltersSelects(store: seq<Pokemon>, f: Filters)
    ensures Subseq(ApplyFilters(store, f), store)
    ensures forall p :: p in ApplyFilters(store, f) <==>
      p in store
      && (NameFilterActive(f) ==> Includes(Lower(p.name), Lower(f.name.value)))
      && (TypeFilterActive(f) ==> exists t :: t in p.types && t.id in f.types.value)
  {
    ApplyFiltersIsOnePass(store, f);
    FilterIsSubseq(store, (p: Pokemon) => Passes(f, p));
  }

  /** An absent or empty name and an absent or empty type list filter nothing out. */
  lemma InactiveFiltersKeepStore(store: seq<Pokemon>, f: Filters)
    requires f.name == None || f.name == Some("")
    requires f.types == None || f.types == Some([])
    ensures ApplyFilters(store, f) == store
  {
  }

  // ---------------------------------------------------------------------------
  // Merging a fetched page

  function Ids(s: seq<Pokemon>): set<int> {
    set p | p in s :: p.id
  }

  predicate UniqueIds(s: seq<Pokemon>) {
    forall i, j :: 0 <= i < j < |s| ==> s[i].id != s[j].id
  }

  /** The store after a page arrives: the old store followed by the response
      entries whose id the old store does not hold, in response order. */
  function MergePage(store: seq<Pokemon>, response: seq<Pokemon>): seq<Pokemon> {
    store + Filter(response, (p: Pokemon) => p.id !in Ids(store))
  }

  /** The old store is a prefix of the new one; the appended part is a
      subsequence of the response holding exactly its entries with an id not
      already stored, so no stored id is added again. */
  lemma MergeAppendsNewIdsOnly(store: seq<Pokemon>, response: seq<Pokemon>)
    ensures var r := MergePage(store, response);
      && |store| <= |r| && r[..|store|] == store
      && Subseq(r[|store|..], response)
      && (forall p :: p in r[|store|..] <==> p in response && p.id !in Ids(store))
      && (forall i :: |store| <= i < |r| ==> r[i].id !in Ids(store))
  {
    var r := MergePage(store, response);
    var added := Filter(response, (p: Pokemon) => p.id !in Ids(store));
    assert r[|store|..] == added;
    FilterIsSubseq(response, (p: Pokemon) => p.id !in Ids(store));
    forall i | |store| <= i < |r| ensures r[i].id !in Ids(store) {
      assert r[i] == added[i - |store|];
      assert added[i - |store|] in added;
    }
  }

  /** The store grows by the number of response entries whose id is new. */
  lemma MergeGrowth(store: seq<Pokemon>, response: seq<Pokemon>)
    ensures |MergePage(store, response)| == |store| + |response| - |Filter(response, (p: Pokemon) => p.id in Ids(store))|
  {
    FilterSplitLength(response, (p: Pokemon) => p.id in Ids(store), (p: Pokemon) => p.id !in Ids(store));
  }

  /** A page whose ids are all stored already leaves the store unchanged. */
  lemma MergeOfKnownPage(store: seq<Pokemon>, response: seq<Pokemon>)
    requires forall p :: p in response ==> p.id in Ids(store)
    ensures MergePage(store, response) == store
  {
    FilterKeepsNone(response, (p: Pokemon) => p.id !in Ids(store));
  }

  lemma {:induction false} FilterKeepsIdsUnique(s: seq<Pokemon>, keep: Pokemon -> bool)
    requires UniqueIds(s)
    ensures UniqueIds(Filter(s, keep))
  {
    if s != [] {
      FilterKeepsIdsUnique(s[1..], keep);
      var rest := Filter(s[1..], keep);
      forall x | x in rest ensures x.id != s[0].id {
        var k :| 0 <= k < |s[1..]| && s[1..][k] == x;
        assert s[k + 1] == x;
      }
      if keep(s[0]) {
        var r := [s[0]] + rest;
        forall i, j | 0 <= i < j < |r| ensures r[i].id != r[j].id {
          if i == 0 {
            assert r[j] == rest[j - 1] && rest[j - 1] in rest;
          } else {
            assert r[i] == rest[i - 1] && r[j] == rest[j - 1];
          }
        }
      }
    }
  }

  /** Merging a page with distinct ids into a store with distinct ids keeps
      the ids distinct. */
  lemma MergeKeepsIdsUnique(store: seq<Pokemon>, response: seq<Pokemon>)
    requires UniqueIds(store) && UniqueIds(response)
    ensures UniqueIds(MergePage(store, response))
  {
    var added := Filter(response, (p: Pokemon) => p.id !in Ids(store));
    FilterKeepsIdsUnique(response, (p: Pokemon) => p.id !in Ids(store));
    var r := store + added;
    forall i, j | 0 <= i < j < |r| ensures r[i].id != r[j].id {
      if j >= |store| {
        assert r[j] == added[j - |store|] && added[j - |store|] in added;
        if i < |store| {
          assert r[i] in store;
        } else {
          assert r[i] == added[i - |store|];
        }
      }
    }
  }

  // ---------------------------------------------------------------------------
  // Paging requests

  /** The record the page fetch sends: the current one without name and type filters. */
  function PaginationFilters(f: Filters): (r: Filters)
    ensures r.name == None && r.types == None && r.typeId == None
    ensures r.page == f.page && r.limit == f.limit
  {
    f.(name := None, types := None, typeId := None)
  }

  /** A page request's query carries the limit (50 when undefined) and the page, nothing else. */
  lemma PageRequestQuery(f: Filters)
    requires f.page.Some?
    ensures QueryPairs(ListParams(PaginationFilters(f)))
      == [("limit", IntToString(f.limit.GetOr(DefaultLimit))), ("page", IntToString(f.page.value))]
  {
    var ps := ListParams(PaginationFilters(f));
    assert ps == [ps[0]] + [ps[1]];
    QueryPairsConcat([ps[0]], [ps[1]]);
    assert [ps[0]][..0] == [] && [ps[1]][..0] == [];
  }

  /** The list component's state. */
  class ListState {
    var pokemons: seq<Pokemon>
    var filteredPokemons: seq<Pokemon>
    var filters: Filters
    var hasMore: bool
    var isLoading: bool
    var error: Option<string>

    /** The view only ever shows stored records, in store order. */
    ghost predicate Valid()
      reads this
    {
      Subseq(filteredPokemons, pokemons)
    }

    /** The state the page starts with, from the server-fetched list. */
    constructor (initialPokemons: seq<Pokemon>)
      ensures Valid()
      ensures pokemons == initialPokemons && filteredPokemons == initialPokemons
      ensures filters == Filters(page := Some(0), limit := Some(DefaultLimit), typeId := None, types := None, name := None)
      ensures hasMore && !isLoading && error == None
    {
      pokemons := initialPokemons;
      filteredPokemons := initialPokemons;
      filters := Filters(page := Some(0), limit := Some(DefaultLimit), typeId := None, types := None, name := None);
      hasMore := true;
      isLoading := false;
      error := None;
      SubseqRefl(initialPokemons);
    }

    /** The filter effect, run whenever the store or the filters change. */
    method ApplyFilterEffect()
      requires Valid()
      modifies this`filteredPokemons, this`hasMore
      ensures Valid()
      ensures filteredPokemons == ApplyFilters(pokemons, filters)
      ensures hasMore == (|filteredPokemons| >= EffectiveLimit(filters))
    {
      var result := ApplyFilters(pokemons, filters);
      ApplyFiltersSelects(pokemons, filters);
      filteredPokemons := result;
      hasMore := |result| >= EffectiveLimit(filters);
    }

    /** The page effect, up to the request: nothing is fetched while `page` is 0;
        otherwise the request drops the name and type filters. */
    method BeginPageFetch() returns (request: Option<Filters>)
      modifies this`isLoading
      ensures filters.page == Some(0) ==> request == None && isLoading == old(isLoading)
      ensures filters.page != Some(0) ==> request == Some(PaginationFilters(filters)) && isLoading
    {
      if filters.page == Some(0) {
        request := None;
      } else {
        isLoading := true;
        request := Some(PaginationFilters(filters));
      }
    }

    /** The page effect, once `getPokemonList(request)` has answered (`Some`)
        or thrown (`None`). */
    method CompletePageFetch(request: Filters, response: Option<seq<Pokemon>>)
      requires Valid()
      modifies this`pokemons, this`hasMore, this`error, this`isLoading
      ensures Valid() && !isLoading
      ensures response.Some? ==>
        && pokemons == MergePage(old(pokemons), response.value)
        && hasMore == (|response.value| == EffectiveLimit(request))
        && error == None
      ensures response.None? ==>
        pokemons == old(pokemons) && hasMore == old(hasMore) && error == Some(LoadMoreError)
      ensures response.Some? && UniqueIds(old(pokemons)) && UniqueIds(response.value) ==> UniqueIds(pokemons)
    {
      match response {
        case Some(page) =>
          var existingIds := set p | p in pokemons :: p.id;
          var newPokemons := Filter(page, (p: Pokemon) => p.id !in existingIds);
          assert existingIds == Ids(pokemons);
          SubseqAppend(filteredPokemons, pokemons, newPokemons);
          if UniqueIds(pokemons) && UniqueIds(page) {
            MergeKeepsIdsUnique(pokemons, page);
          }
          pokemons := pokemons + newPokemons;
          hasMore := |page| == EffectiveLimit(request);
          error := None;
        case None =>
          error := Some(LoadMoreError);
      }
      isLoading := false;
    }

    /** `handleFilterChange`: the new record with `page` reset to 0. */
    method HandleFilterChange(newFilters: Filters)
      modifies this`filters
      ensures filters == newFilters.(page := Some(0))
    {
      filters := newFilters.(page := Some(0));
    }

    /** The last card scrolled into view: the next page is requested when more
        may exist. */
    method OnLastCardVisible()
      modifies this`filters
      ensures old(hasMore) ==> filters == old(filters).(page := Some(old(filters).page.GetOr(0) + 1))
      ensures !old(hasMore) ==> filters == old(filters)
    {
      if hasMore {
        filters := filters.(page := Some(filters.page.GetOr(0) + 1));
      }
    }
  }
}
