/** The filter panel of `components/PokemonFilters.tsx`. The panel keeps its
    own input state (`selectedTypes`, `searchTerm`, `limitValue`); each handler
    updates that state and hands a new filter record to the list. The new
    records are pure functions of the current record. */
module PokemonFilters {
  import opened Options
  import opened Seqs
  import opened Text
  import opened PokemonTypes

  /** The values the page-size selector offers. */
  const LimitOptions: seq<string> := ["10", "20", "50", "100"]

  /** No id occurs twice. */
  predicate NoDuplicates(s: seq<int>) {
    forall i, j :: 0 <= i < j < |s| ==> s[i] != s[j]
  }

  /** Selecting a type button: an absent id is appended, a present id is
      removed everywhere it occurs. */
  function Toggle(selected: seq<int>, id: int): (r: seq<int>)
    ensures id in r <==> id !in selected
    ensures id !in selected ==> r == selected + [id]
    ensures id in selected ==> Subseq(r, selected)
    ensures forall x :: x != id ==> multiset(r)[x] == multiset(selected)[x]
  {
    if id in selected then
      var r := Filter(selected, x => x != id);
      FilterIsSubseq(selected, x => x != id);
      forall x | x != id ensures multiset(r)[x] == multiset(selected)[x] {
        FilterCount(selected, y => y != id, x);
      }
      r
    else
      selected + [id]
  }

  /** Toggling an absent id twice gives back the original selection. */
  lemma ToggleTwiceRestores(selected: seq<int>, id: int)
    requires id !in selected
    ensures Toggle(Toggle(selected, id), id) == selected
  {
    var once := selected + [id];
    FilterConcat(selected, [id], x => x != id);
    FilterKeepsAll(selected, x => x != id);
    assert Filter([id], x => x != id) == [];
  }

  /** A selection without duplicates stays without duplicates. */
  lemma ToggleKeepsNoDuplicates(selected: seq<int>, id: int)
    requires NoDuplicates(selected)
    ensures NoDuplicates(Toggle(selected, id))
  {
    var r := Toggle(selected, id);
    if id !in selected {
      assert r == selected + [id];
    } else {
      forall i, j | 0 <= i < j < |r| ensures r[i] != r[j] {
        if r[i] == r[j] {
          var x := r[i];
          assert x in r && x != id;
          assert multiset(r)[x] >= 2 by {
            assert r == r[..i] + [r[i]] + r[i + 1..j] + [r[j]] + r[j + 1..];
          }
          CountAtMostOne(selected, x);
          assert false;
        }
      }
    }
  }

  lemma {:induction false} CountAtMostOne(s: seq<int>, x: int)
    requires NoDuplicates(s)
    ensures multiset(s)[x] <= 1
  {
    if s != [] {
      CountAtMostOne(s[1..], x);
      assert s == [s[0]] + s[1..];
      if s[0] == x {
        assert x !in s[1..];
      }
    }
  }

  /** The record `handleTypeChange` sends for the new selection. */
  function TypeChange(f: Filters, newSelected: seq<int>): (r: Filters)
    ensures r.typeId == None && r.page == Some(0)
    ensures r.types == None <==> newSelected == []
    ensures r.types != None ==> r.types.value == newSelected
    ensures r.name == f.name && r.limit == f.limit
  {
    f.(types := if |newSelected| > 0 then Some(newSelected) else None, typeId := None, page := Some(0))
  }

  /** The record `handleNameChange` sends: an empty name means no name filter. */
  function NameChange(f: Filters, newName: string): (r: Filters)
    ensures r.name == None <==> newName == ""
    ensures r.name != None ==> r.name.value == newName
    ensures r.page == Some(0)
    ensures r.limit == f.limit && r.types == f.types && r.typeId == f.typeId
  {
    f.(name := if newName == "" then None else Some(newName), page := Some(0))
  }

  /** The record `handleLimitChange` sends. */
  function LimitChange(f: Filters, newLimit: int): (r: Filters)
    ensures r.limit == Some(newLimit) && r.page == Some(0)
    ensures r.name == f.name && r.types == f.types && r.typeId == f.typeId
  {
    f.(limit := Some(newLimit), page := Some(0))
  }

  /** The record `handleClearFilters` sends. */
  function ClearedFilters(): (r: Filters)
    ensures r.limit == Some(DefaultLimit) && r.page == Some(0)
    ensures r.name == None && r.types == None && r.typeId == None
  {
    Filters(page := Some(0), limit := Some(DefaultLimit), typeId := None, types := None, name := None)
  }

  /** The panel's own input state. */
  class FilterPanel {
    var selectedTypes: seq<int>
    var searchTerm: string
    var limitValue: string

    /** The initial state is read from the record the panel is mounted with. */
    constructor (filters: Filters)
      ensures selectedTypes == filters.types.GetOr([])
      ensures searchTerm == filters.name.GetOr("")
      ensures limitValue == if filters.limit.Some? then IntToString(filters.limit.value) else "50"
    {
      selectedTypes := filters.types.GetOr([]);
      searchTerm := filters.name.GetOr("");
      limitValue := if filters.limit.Some? then IntToString(filters.limit.value) else "50";
    }

    /** A type button was pressed. */
    method HandleTypeChange(filters: Filters, typeId: int) returns (newFilters: Filters)
      modifies this`selectedTypes
      ensures selectedTypes == Toggle(old(selectedTypes), typeId)
      ensures newFilters == TypeChange(filters, selectedTypes)
    {
      selectedTypes := Toggle(selectedTypes, typeId);
      newFilters := TypeChange(filters, selectedTypes);
    }

    /** The name input changed; the record is what the delayed callback sends. */
    method HandleNameChange(filters: Filters, newName: string) returns (newFilters: Filters)
      modifies this`searchTerm
      ensures searchTerm == newName
      ensures newFilters == NameChange(filters, newName)
    {
      searchTerm := newName;
      newFilters := NameChange(filters, newName);
    }

    /** A page size was chosen in the selector. */
    method HandleLimitChange(filters: Filters, value: string) returns (newFilters: Filters)
      requires value in LimitOptions
      modifies this`limitValue
      ensures limitValue == value
      ensures ParseDecimal(value).Some?
      ensures newFilters == LimitChange(filters, ParseDecimal(value).value)
    {
      var newLimit := ParseDecimal(value);
      limitValue := value;
      newFilters := LimitChange(filters, newLimit.value);
    }

    /** The clear button was pressed. */
    method HandleClearFilters() returns (newFilters: Filters)
      modifies this
      ensures searchTerm == "" && selectedTypes == [] && limitValue == "50"
      ensures newFilters == ClearedFilters()
    {
      searchTerm := "";
      selectedTypes := [];
      limitValue := "50";
      newFilters := ClearedFilters();
    }
  }

  /** Every option of the page-size selector reads as one of the offered sizes. */
  lemma LimitOptionsParse(value: string)
    requires value in LimitOptions
    ensures ParseDecimal(value).Some?
    ensures ParseDecimal(value).value in {10, 20, 50, 100}
  {
    NatToDecimalRoundTrip(10);
    NatToDecimalRoundTrip(20);
    NatToDecimalRoundTrip(50);
    NatToDecimalRoundTrip(100);
    assert NatToDecimal(10) == "10";
    assert NatToDecimal(20) == "20";
    assert NatToDecimal(50) == "50";
    assert NatToDecimal(100) == NatToDecimal(10) + "0" == "100";
  }
}
