/** The evolution panel of `components/PokemonEvolutions.tsx`:
    `determineEvolutionChain`, the decision to show "does not evolve", and the
    two pure helpers of the evolution card (the type gradient and the padded
    dex number). The remote lookup `getPokemonById` is the parameter `lookup`;
    `None` stands for a lookup that threw. */
module PokemonEvolutions {
  import opened Options
  import opened Seqs
  import opened Text
  import opened PokemonTypes

  /** One hard-coded chain of dex numbers, from the base form up. */
  datatype KnownChain = KnownChain(id: int, chain: seq<int>)

  const EvolutionChains: seq<KnownChain> := [
    KnownChain(1, [1, 2, 3]),
    KnownChain(4, [4, 5, 6]),
    KnownChain(7, [7, 8, 9])
  ]

  /** `chains.find(chain => chain.chain.includes(dex))`. */
  function FindChainIn(chains: seq<KnownChain>, dex: int): (r: Option<seq<int>>)
    ensures r.Some? ==> dex in r.value && exists c :: c in chains && c.chain == r.value
    ensures r.None? ==> forall c :: c in chains ==> dex !in c.chain
    ensures r.Some? ==> exists k ::
      0 <= k < |chains| && chains[k].chain == r.value && forall j :: 0 <= j < k ==> dex !in chains[j].chain
  {
    if chains == [] then None
    else if dex in chains[0].chain then Some(chains[0].chain)
    else FindChainIn(chains[1..], dex)
  }

  function FindChain(dex: int): Option<seq<int>> {
    FindChainIn(EvolutionChains, dex)
  }

  /** `s.indexOf(x)` for an element that occurs. */
  function IndexIn(s: seq<int>, x: int): (k: nat)
    requires x in s
    ensures k < |s| && s[k] == x && x !in s[..k]
  {
    if s[0] == x then 0
    else
      var k := IndexIn(s[1..], x) + 1;
      assert s[..k] == [s[0]] + s[1..][..k - 1];
      k
  }

  /** The records of `ids` whose lookup succeeds, in the order of `ids`: a loop of
      awaited lookups that pushes each success and skips each failure. */
  function ResolveAll(lookup: int -> Option<Pokemon>, ids: seq<int>): (r: seq<Pokemon>)
    ensures |r| <= |ids|
  {
    if ids == [] then []
    else ResolveAll(lookup, ids[..|ids| - 1]) + (match lookup(ids[|ids| - 1]) case Some(p) => [p] case None => [])
  }

  /** A record is resolved exactly when the lookup of one of the ids yields it. */
  lemma {:induction false} ResolveAllMembers(lookup: int -> Option<Pokemon>, ids: seq<int>, p: Pokemon)
    ensures p in ResolveAll(lookup, ids) <==> exists i :: 0 <= i < |ids| && lookup(ids[i]) == Some(p)
  {
    if ids != [] {
      var init, last := ids[..|ids| - 1], ids[|ids| - 1];
      assert ResolveAll(lookup, ids) == ResolveAll(lookup, init) + (match lookup(last) case Some(q) => [q] case None => []);
      assert p in ResolveAll(lookup, ids) <==> p in ResolveAll(lookup, init) || lookup(last) == Some(p);
      ResolveAllMembers(lookup, init, p);
      if exists i :: 0 <= i < |ids| && lookup(ids[i]) == Some(p) {
        var i :| 0 <= i < |ids| && lookup(ids[i]) == Some(p);
        if i < |init| {
          assert init[i] == ids[i];
        }
      }
      if exists i :: 0 <= i < |init| && lookup(init[i]) == Some(p) {
        var i :| 0 <= i < |init| && lookup(init[i]) == Some(p);
        assert ids[i] == init[i];
      }
    }
  }

  // ---------------------------------------------------------------------------
  // The fallback path: cross-references carried by the records

  /** `p.preEvolution || p.apiPreEvolution`. */
  function PreRef(p: Pokemon): Option<PreEvolutionRef> {
    if p.preEvolution.Some? then p.preEvolution else p.apiPreEvolution
  }

  /** `ref.pokedexId || ref.pokedexIdd`, kept only when truthy (present and non-zero). */
  function RefId(r: PreEvolutionRef): (id: Option<int>)
    ensures id.Some? ==> id.value != 0 && (r.pokedexId == id || r.pokedexIdd == id)
    ensures r.pokedexId.Some? && r.pokedexId.value != 0 ==> id == r.pokedexId
    ensures (r.pokedexId.None? || r.pokedexId.value == 0) && r.pokedexIdd.Some? && r.pokedexIdd.value != 0 ==> id == r.pokedexIdd
    ensures id.None? <==> (r.pokedexId.None? || r.pokedexId.value == 0) && (r.pokedexIdd.None? || r.pokedexIdd.value == 0)
  {
    if r.pokedexId.Some? && r.pokedexId.value != 0 then r.pokedexId
    else if r.pokedexIdd.Some? && r.pokedexIdd.value != 0 then r.pokedexIdd
    else None
  }

  /** The dex number of a record's pre-evolution, when it has a usable one. */
  function PreEvolutionId(p: Pokemon): Option<int> {
    match PreRef(p)
    case Some(r) => RefId(r)
    case None => None
  }

  /** `p.evolutions || p.apiEvolutions`: an array that is present wins, even empty. */
  function EvolutionRefs(p: Pokemon): Option<seq<EvolutionRef>> {
    if p.evolutions.Some? then p.evolutions else p.apiEvolutions
  }

  function EvolutionList(p: Pokemon): seq<EvolutionRef> {
    EvolutionRefs(p).GetOr([])
  }

  function RefIds(refs: seq<EvolutionRef>): seq<int> {
    seq(|refs|, i requires 0 <= i < |refs| => refs[i].pokedexId)
  }

  /** Fallback pre-evolutions: the direct pre-evolution and, when that record
      names one in turn, the one before it, placed first. A failed lookup ends
      the walk and keeps what was found. */
  function FallbackPreEvolutions(current: Pokemon, lookup: int -> Option<Pokemon>): (r: seq<Pokemon>)
    ensures |r| <= 2
    ensures r == [] <==> PreEvolutionId(current).None? || lookup(PreEvolutionId(current).value).None?
    ensures r != [] ==> lookup(PreEvolutionId(current).value) == Some(r[|r| - 1])
    ensures |r| == 2 ==> PreEvolutionId(r[1]).Some? && lookup(PreEvolutionId(r[1]).value) == Some(r[0])
    ensures |r| == 2 <==> r != [] && PreEvolutionId(r[|r| - 1]).Some? && lookup(PreEvolutionId(r[|r| - 1]).value).Some?
  {
    match PreEvolutionId(current)
    case None => []
    case Some(id) =>
      match lookup(id)
      case None => []
      case Some(parent) =>
        match PreEvolutionId(parent)
        case None => [parent]
        case Some(earlierId) =>
          match lookup(earlierId)
          case None => [parent]
          case Some(earlier) => [earlier, parent]
  }

  /** One direct evolution: the record, followed by those of its own evolutions
      whose lookup succeeds; nothing when the direct lookup fails. */
  function Hop(lookup: int -> Option<Pokemon>, e: EvolutionRef): seq<Pokemon> {
    match lookup(e.pokedexId)
    case None => []
    case Some(d) => [d] + ResolveAll(lookup, RefIds(EvolutionList(d)))
  }

  function Hops(lookup: int -> Option<Pokemon>, refs: seq<EvolutionRef>): seq<Pokemon> {
    if refs == [] then [] else Hops(lookup, refs[..|refs| - 1]) + Hop(lookup, refs[|refs| - 1])
  }

  /** Fallback evolutions, as the bag the concurrent pushes fill. */
  function FallbackEvolutions(current: Pokemon, lookup: int -> Option<Pokemon>): multiset<Pokemon> {
    multiset(Hops(lookup, EvolutionList(current)))
  }

  // ---------------------------------------------------------------------------
  // determineEvolutionChain

  /** The pre-evolutions found through a chain of the table: the lookups of the
      dex numbers before the current one. */
  function StaticPreEvolutions(chains: seq<KnownChain>, dex: int, lookup: int -> Option<Pokemon>): seq<Pokemon>
    requires FindChainIn(chains, dex).Some?
  {
    var c := FindChainIn(chains, dex).value;
    ResolveAll(lookup, c[..IndexIn(c, dex)])
  }

  /** The evolutions found through a chain of the table: the lookups of the dex
      numbers after the current one. */
  function StaticEvolutions(chains: seq<KnownChain>, dex: int, lookup: int -> Option<Pokemon>): seq<Pokemon>
    requires FindChainIn(chains, dex).Some?
  {
    var c := FindChainIn(chains, dex).value;
    ResolveAll(lookup, c[IndexIn(c, dex) + 1..])
  }

  /** The lookups of `c[from..to]`, one after the other, keeping each success. */
  method ResolveRange(lookup: int -> Option<Pokemon>, c: seq<int>, from: nat, to: nat) returns (found: seq<Pokemon>)
    requires from <= to <= |c|
    ensures found == ResolveAll(lookup, c[from..to])
  {
    found := [];
    var i := from;
    while i < to
      invariant from <= i <= to
      invariant found == ResolveAll(lookup, c[from..i])
    {
      assert c[from..i + 1][..i - from] == c[from..i];
      var data := lookup(c[i]);
      if data.Some? {
        found := found + [data.value];
      }
      i := i + 1;
    }
  }

  /** The fallback pre-evolution walk: the direct pre-evolution is pushed, and
      the one before it, when found, is put in front. */
  method ResolvePreEvolutions(current: Pokemon, lookup: int -> Option<Pokemon>) returns (preEvolutions: seq<Pokemon>)
    ensures preEvolutions == FallbackPreEvolutions(current, lookup)
  {
    preEvolutions := [];
    var preEvolution := if current.preEvolution.Some? then current.preEvolution else current.apiPreEvolution;
    if preEvolution.Some? {
      var preEvoId := RefId(preEvolution.value);
      if preEvoId.Some? {
        var preEvolutionData := lookup(preEvoId.value);
        if preEvolutionData.Some? {
          preEvolutions := preEvolutions + [preEvolutionData.value];
          var earlierPreEvo := PreRef(preEvolutionData.value);
          if earlierPreEvo.Some? {
            var earlierPreEvoId := RefId(earlierPreEvo.value);
            if earlierPreEvoId.Some? {
              var earlierPreEvolution := lookup(earlierPreEvoId.value);
              if earlierPreEvolution.Some? {
                preEvolutions := [earlierPreEvolution.value] + preEvolutions;
              }
            }
          }
        }
      }
    }
  }

  /** The lookups of the dex numbers of `refs`, one after the other, keeping
      each success. */
  method ResolveRefs(lookup: int -> Option<Pokemon>, refs: seq<EvolutionRef>) returns (found: seq<Pokemon>)
    ensures found == ResolveAll(lookup, RefIds(refs))
  {
    found := [];
    var m := 0;
    while m < |refs|
      invariant 0 <= m <= |refs|
      invariant found == ResolveAll(lookup, RefIds(refs[..m]))
    {
      assert RefIds(refs[..m + 1])[..m] == RefIds(refs[..m]);
      var data := lookup(refs[m].pokedexId);
      if data.Some? {
        found := found + [data.value];
      }
      m := m + 1;
    }
    assert refs[..|refs|] == refs;
  }

  /** The fallback evolution walk: every direct evolution found is pushed,
      followed by those of its own evolutions that are found. */
  method ResolveEvolutions(current: Pokemon, lookup: int -> Option<Pokemon>) returns (evolutions: seq<Pokemon>)
    ensures evolutions == Hops(lookup, EvolutionList(current))
  {
    evolutions := [];
    var evolutionsArray := EvolutionRefs(current);
    if evolutionsArray.Some? && |evolutionsArray.value| > 0 {
      var refs := evolutionsArray.value;
      var j := 0;
      while j < |refs|
        invariant 0 <= j <= |refs|
        invariant evolutions == Hops(lookup, refs[..j])
      {
        HopsStep(lookup, refs, j);
        ghost var before := evolutions;
        var evolutionData := lookup(refs[j].pokedexId);
        if evolutionData.Some? {
          var d := evolutionData.value;
          var hop := [d];
          var furtherEvolutions := EvolutionRefs(d);
          if furtherEvolutions.Some? && |furtherEvolutions.value| > 0 {
            var found := ResolveRefs(lookup, furtherEvolutions.value);
            hop := hop + found;
          } else {
            assert RefIds(EvolutionList(d)) == [];
          }
          assert hop == Hop(lookup, refs[j]);
          evolutions := evolutions + hop;
        } else {
          assert Hop(lookup, refs[j]) == [];
        }
        j := j + 1;
      }
      assert refs[..|refs|] == refs;
    }
  }

  lemma HopsStep(lookup: int -> Option<Pokemon>, refs: seq<EvolutionRef>, j: nat)
    requires j < |refs|
    ensures Hops(lookup, refs[..j + 1]) == Hops(lookup, refs[..j]) + Hop(lookup, refs[j])
  {
    assert refs[..j + 1][..j] == refs[..j];
  }

  /** `determineEvolutionChain`: a dex number in a known chain is resolved from
      the chain alone; any other record is resolved from its cross-references.
      The fallback evolutions are pushed by concurrent callbacks, so only their
      multiset is determined. */
  method DetermineEvolutionChain(current: Pokemon, lookup: int -> Option<Pokemon>)
    returns (preEvolutions: seq<Pokemon>, evolutions: seq<Pokemon>)
    ensures FindChain(current.pokedexId).Some? ==>
      preEvolutions == StaticPreEvolutions(EvolutionChains, current.pokedexId, lookup) &&
      evolutions == StaticEvolutions(EvolutionChains, current.pokedexId, lookup)
    ensures FindChain(current.pokedexId).None? ==>
      preEvolutions == FallbackPreEvolutions(current, lookup) &&
      multiset(evolutions) == FallbackEvolutions(current, lookup)
  {
    var chain := FindChain(current.pokedexId);
    if chain.Some? {
      preEvolutions, evolutions := ResolveKnownChain(EvolutionChains, current.pokedexId, chain.value, lookup);
    } else {
      preEvolutions := ResolvePreEvolutions(current, lookup);
      evolutions := ResolveEvolutions(current, lookup);
    }
  }

  /** The table path: the lookups before the dex number's position in its
      chain, then those after it. */
  method ResolveKnownChain(chains: seq<KnownChain>, dex: int, c: seq<int>, lookup: int -> Option<Pokemon>)
    returns (preEvolutions: seq<Pokemon>, evolutions: seq<Pokemon>)
    requires FindChainIn(chains, dex) == Some(c)
    ensures preEvolutions == StaticPreEvolutions(chains, dex, lookup)
    ensures evolutions == StaticEvolutions(chains, dex, lookup)
  {
    var currentIndex := IndexIn(c, dex);
    preEvolutions := ResolveRange(lookup, c, 0, currentIndex);
    evolutions := ResolveRange(lookup, c, currentIndex + 1, |c|);
    assert c[0..currentIndex] == c[..currentIndex];
    assert c[currentIndex + 1..|c|] == c[currentIndex + 1..];
  }

  // ---------------------------------------------------------------------------
  // Properties of the resolution

  lemma ResolveAllSnoc(lookup: int -> Option<Pokemon>, ids: seq<int>, x: int)
    ensures ResolveAll(lookup, ids + [x]) == ResolveAll(lookup, ids) + ResolveAll(lookup, [x])
  {
    assert (ids + [x])[..|ids|] == ids;
    assert [x][..0] == [];
  }

  /** Resolving a concatenation resolves each part in turn. */
  lemma {:induction false} ResolveAllConcat(lookup: int -> Option<Pokemon>, a: seq<int>, b: seq<int>)
    ensures ResolveAll(lookup, a + b) == ResolveAll(lookup, a) + ResolveAll(lookup, b)
    decreases |b|
  {
    if b == [] {
      assert a + b == a;
    } else {
      var b', last := b[..|b| - 1], b[|b| - 1];
      calc {
        ResolveAll(lookup, a + b);
        { assert a + b == (a + b') + [last]; }
        ResolveAll(lookup, (a + b') + [last]);
        { ResolveAllSnoc(lookup, a + b', last); }
        ResolveAll(lookup, a + b') + ResolveAll(lookup, [last]);
        { ResolveAllConcat(lookup, a, b'); }
        ResolveAll(lookup, a) + ResolveAll(lookup, b') + ResolveAll(lookup, [last]);
        { AppendAssoc(ResolveAll(lookup, a), ResolveAll(lookup, b'), ResolveAll(lookup, [last])); }
        ResolveAll(lookup, a) + (ResolveAll(lookup, b') + ResolveAll(lookup, [last]));
        { ResolveAllSnoc(lookup, b', last); assert b' + [last] == b; }
        ResolveAll(lookup, a) + ResolveAll(lookup, b);
      }
    }
  }

  /** A failed lookup omits exactly that id; the others keep their relative order. */
  lemma FailedLookupIsOmitted(lookup: int -> Option<Pokemon>, a: seq<int>, x: int, b: seq<int>)
    requires lookup(x).None?
    ensures ResolveAll(lookup, a + [x] + b) == ResolveAll(lookup, a) + ResolveAll(lookup, b)
  {
    calc {
      ResolveAll(lookup, a + [x] + b);
      { ResolveAllConcat(lookup, a + [x], b); }
      ResolveAll(lookup, a + [x]) + ResolveAll(lookup, b);
      { ResolveAllSnoc(lookup, a, x); }
      ResolveAll(lookup, a) + ResolveAll(lookup, [x]) + ResolveAll(lookup, b);
      { assert [x][..0] == []; assert ResolveAll(lookup, [x]) == []; }
      ResolveAll(lookup, a) + [] + ResolveAll(lookup, b);
      { assert ResolveAll(lookup, a) + [] == ResolveAll(lookup, a); }
      ResolveAll(lookup, a) + ResolveAll(lookup, b);
    }
  }

  /** When every lookup succeeds, the result is the lookups of the ids, in order. */
  lemma {:induction false} AllLookupsSucceed(lookup: int -> Option<Pokemon>, ids: seq<int>)
    requires forall i :: 0 <= i < |ids| ==> lookup(ids[i]).Some?
    ensures |ResolveAll(lookup, ids)| == |ids|
    ensures forall i :: 0 <= i < |ids| ==> Some(ResolveAll(lookup, ids)[i]) == lookup(ids[i])
  {
    if ids != [] {
      var init := ids[..|ids| - 1];
      assert forall i :: 0 <= i < |init| ==> init[i] == ids[i];
      AllLookupsSucceed(lookup, init);
    }
  }

  /** `pre` holds the records of `c[..k]` and `evo` those of `c[k + 1..]`, one
      for one and in chain order. */
  ghost predicate SplitsAt(lookup: int -> Option<Pokemon>, c: seq<int>, k: nat, pre: seq<Pokemon>, evo: seq<Pokemon>) {
    && k < |c|
    && |pre| == k
    && |evo| == |c| - k - 1
    && (forall i :: 0 <= i < k ==> Some(pre[i]) == lookup(c[i]))
    && (forall i :: k < i < |c| ==> Some(evo[i - k - 1]) == lookup(c[i]))
  }

  /** On a known chain, with every lookup succeeding, the pre-evolutions are the
      records of the dex numbers before the current one and the evolutions those
      after it, both in chain order. */
  lemma KnownChainSplit(chains: seq<KnownChain>, dex: int, lookup: int -> Option<Pokemon>)
    requires FindChainIn(chains, dex).Some?
    requires forall id :: id in FindChainIn(chains, dex).value ==> lookup(id).Some?
    ensures var c := FindChainIn(chains, dex).value; var k := IndexIn(c, dex);
      c[k] == dex && SplitsAt(lookup, c, k, StaticPreEvolutions(chains, dex, lookup), StaticEvolutions(chains, dex, lookup))
  {
    var c := FindChainIn(chains, dex).value;
    ChainSplitAt(lookup, c, dex);
  }

  lemma ChainSplitAt(lookup: int -> Option<Pokemon>, c: seq<int>, dex: int)
    requires dex in c
    requires forall id :: id in c ==> lookup(id).Some?
    ensures var k := IndexIn(c, dex);
      c[k] == dex && SplitsAt(lookup, c, k, ResolveAll(lookup, c[..k]), ResolveAll(lookup, c[k + 1..]))
  {
    var k := IndexIn(c, dex);
    var before, after := c[..k], c[k + 1..];
    forall i | 0 <= i < |before| ensures lookup(before[i]).Some? {
      assert before[i] == c[i] && c[i] in c;
    }
    forall i | 0 <= i < |after| ensures lookup(after[i]).Some? {
      assert after[i] == c[k + 1 + i] && c[k + 1 + i] in c;
    }
    AllLookupsSucceed(lookup, before);
    AllLookupsSucceed(lookup, after);
    var pre, evo := ResolveAll(lookup, before), ResolveAll(lookup, after);
    forall i | 0 <= i < k ensures Some(pre[i]) == lookup(c[i]) {
      assert before[i] == c[i];
    }
    forall i | k < i < |c| ensures Some(evo[i - k - 1]) == lookup(c[i]) {
      assert after[i - k - 1] == c[i];
    }
  }

  /** Dex number 2 sits in the middle of the chain 1, 2, 3. */
  lemma MidChainExample(lookup: int -> Option<Pokemon>)
    requires lookup(1).Some? && lookup(3).Some?
    ensures StaticPreEvolutions(EvolutionChains, 2, lookup) == [lookup(1).value]
    ensures StaticEvolutions(EvolutionChains, 2, lookup) == [lookup(3).value]
  {
    assert FindChain(2) == Some([1, 2, 3]);
    assert IndexIn([1, 2, 3], 2) == 1;
    assert [1, 2, 3][..1] == [1] && [1, 2, 3][2..] == [3];
    assert [1][..0] == [] && [3][..0] == [];
  }

  /** `p` comes out of the hop through `e`: it is the direct evolution, or one of
      that record's own evolutions. */
  ghost predicate ReachedVia(lookup: int -> Option<Pokemon>, e: EvolutionRef, p: Pokemon) {
    match lookup(e.pokedexId)
    case None => false
    case Some(d) => d == p || exists f :: f in EvolutionList(d) && lookup(f.pokedexId) == Some(p)
  }

  lemma HopMembers(lookup: int -> Option<Pokemon>, e: EvolutionRef, p: Pokemon)
    ensures p in Hop(lookup, e) <==> ReachedVia(lookup, e, p)
  {
    match lookup(e.pokedexId)
    case None =>
    case Some(d) =>
      var fs := EvolutionList(d);
      ResolveAllMembers(lookup, RefIds(fs), p);
      if exists f :: f in fs && lookup(f.pokedexId) == Some(p) {
        var f :| f in fs && lookup(f.pokedexId) == Some(p);
        var i :| 0 <= i < |fs| && fs[i] == f;
        assert RefIds(fs)[i] == f.pokedexId;
      }
      if exists i :: 0 <= i < |RefIds(fs)| && lookup(RefIds(fs)[i]) == Some(p) {
        var i :| 0 <= i < |RefIds(fs)| && lookup(RefIds(fs)[i]) == Some(p);
        assert fs[i] in fs;
      }
  }

  /** A record is among the fallback evolutions exactly when it is reached
      through one of the current record's evolution references. In particular a
      failed direct lookup contributes nothing, while its siblings still count. */
  lemma {:induction false} FallbackEvolutionMembers(lookup: int -> Option<Pokemon>, refs: seq<EvolutionRef>, p: Pokemon)
    ensures p in Hops(lookup, refs) <==> exists e :: e in refs && ReachedVia(lookup, e, p)
  {
    if refs != [] {
      var init := refs[..|refs| - 1];
      var last := refs[|refs| - 1];
      assert Hops(lookup, refs) == Hops(lookup, init) + Hop(lookup, last);
      assert p in Hops(lookup, refs) <==> p in Hops(lookup, init) || p in Hop(lookup, last);
      FallbackEvolutionMembers(lookup, init, p);
      HopMembers(lookup, last, p);
      ReachedBySnoc(lookup, refs, p);
    }
  }

  lemma ReachedBySnoc(lookup: int -> Option<Pokemon>, refs: seq<EvolutionRef>, p: Pokemon)
    requires refs != []
    ensures (exists e :: e in refs && ReachedVia(lookup, e, p))
      <==> (exists e :: e in refs[..|refs| - 1] && ReachedVia(lookup, e, p)) || ReachedVia(lookup, refs[|refs| - 1], p)
  {
    var init, last := refs[..|refs| - 1], refs[|refs| - 1];
    assert refs == init + [last];
    if exists e :: e in refs && ReachedVia(lookup, e, p) {
      var e :| e in refs && ReachedVia(lookup, e, p);
      if e != last {
        assert e in init;
      }
    }
    if exists e :: e in init && ReachedVia(lookup, e, p) {
      var e :| e in init && ReachedVia(lookup, e, p);
      assert e in refs;
    }
  }

  /** A failed direct lookup also drops that entry's further evolutions. */
  lemma FailedHopDropsFurther(lookup: int -> Option<Pokemon>, e: EvolutionRef)
    requires lookup(e.pokedexId).None?
    ensures Hop(lookup, e) == []
  {
  }

  /** One of two evolution lookups failing still leaves the other's record. */
  lemma SiblingSurvivesFailure(lookup: int -> Option<Pokemon>, current: Pokemon, a: EvolutionRef, b: EvolutionRef)
    requires EvolutionList(current) == [a, b]
    requires lookup(a.pokedexId).None? && lookup(b.pokedexId).Some?
    ensures lookup(b.pokedexId).value in FallbackEvolutions(current, lookup)
  {
    FallbackEvolutionMembers(lookup, [a, b], lookup(b.pokedexId).value);
    assert ReachedVia(lookup, b, lookup(b.pokedexId).value);
  }

  /** A record outside the known chains, with no pre-evolution reference and an
      empty evolution list, resolves to nothing on either side. */
  lemma NoReferencesNoChain(current: Pokemon, lookup: int -> Option<Pokemon>)
    requires FindChain(current.pokedexId).None?
    requires current.preEvolution.None? && current.apiPreEvolution.None?
    requires EvolutionList(current) == []
    ensures FallbackPreEvolutions(current, lookup) == []
    ensures FallbackEvolutions(current, lookup) == multiset{}
  {
  }

  // ---------------------------------------------------------------------------
  // Rendering decisions

  datatype EvolutionView =
    | Loading
    | Failed(message: string)
    | DoesNotEvolve
    | Chain(preEvolutions: seq<Pokemon>, current: Pokemon, evolutions: seq<Pokemon>)

  /** What the panel renders: the loading placeholder, then the error, then
      "does not evolve" when both sides are empty, else the chain. */
  function ChainView(isLoading: bool, error: Option<string>, pre: seq<Pokemon>, current: Pokemon, evos: seq<Pokemon>): (v: EvolutionView)
    ensures v == DoesNotEvolve <==> !isLoading && (error.None? || error.value == "") && pre == [] && evos == []
    ensures v.Chain? <==> !isLoading && (error.None? || error.value == "") && (pre != [] || evos != [])
    ensures v.Chain? ==> v.preEvolutions == pre && v.current == current && v.evolutions == evos
    ensures isLoading ==> v == Loading
    ensures !isLoading && error.Some? && error.value != "" ==> v == Failed(error.value)
  {
    if isLoading then Loading
    else if error.Some? && error.value != "" then Failed(error.value)
    else if !(|pre| > 0 || |evos| > 0) then DoesNotEvolve
    else Chain(pre, current, evos)
  }

  // ---------------------------------------------------------------------------
  // The evolution card

  const DefaultGradient: string := "from-gray-200 to-gray-400"

  const GradientTable: map<string, string> := map[
    "normal" := "from-gray-200 to-gray-400",
    "fire" := "from-red-300 to-orange-500",
    "water" := "from-blue-300 to-blue-500",
    "electric" := "from-yellow-200 to-yellow-400",
    "grass" := "from-green-300 to-green-500",
    "ice" := "from-blue-100 to-blue-300",
    "fighting" := "from-red-400 to-red-700",
    "poison" := "from-purple-300 to-purple-500",
    "ground" := "from-yellow-300 to-yellow-600",
    "flying" := "from-indigo-200 to-indigo-400",
    "psychic" := "from-pink-300 to-pink-500",
    "bug" := "from-lime-300 to-lime-500",
    "rock" := "from-yellow-400 to-yellow-700",
    "ghost" := "from-purple-400 to-purple-700",
    "dragon" := "from-indigo-400 to-indigo-600",
    "dark" := "from-gray-500 to-gray-700",
    "steel" := "from-gray-300 to-gray-500",
    "fairy" := "from-pink-200 to-pink-400"
  ]

  /** `getTypeGradient` as written: the lookup goes through a plain object, so
      the two lower-case names JavaScript objects inherit, `constructor` and
      `__proto__`, find the inherited member, which is truthy and ends up in the
      class string as its text form. */
  function TypeGradientAsWritten(typeName: Option<string>): (g: string)
    ensures typeName.None? || Lower(typeName.value) !in {"constructor", "__proto__"} ==> g == TypeGradient(typeName)
    ensures typeName.Some? && Lower(typeName.value) == "constructor" ==> g !in GradientTable.Values
  {
    match typeName
    case None => DefaultGradient
    case Some(name) =>
      var key := Lower(name);
      if key in GradientTable then GradientTable[key]
      else if key == "constructor" then "function Object() { [native code] }"
      else if key == "__proto__" then "[object Object]"
      else DefaultGradient
  }

  /** The type name "Constructor" gets no gradient from the table as written. */
  lemma InheritedNameLeaksThrough()
    ensures TypeGradientAsWritten(Some("Constructor")) !in GradientTable.Values
  {
    assert Lower("Constructor") == "constructor";
    assert "function Object() { [native code] }" != DefaultGradient;
  }

  /** `getTypeGradient` as intended: the table entry for the lower-cased name,
      or the default gradient for a missing or unknown name. */
  function TypeGradient(typeName: Option<string>): (g: string)
    ensures typeName.Some? && Lower(typeName.value) in GradientTable ==> g == GradientTable[Lower(typeName.value)]
    ensures typeName.None? || Lower(typeName.value) !in GradientTable ==> g == DefaultGradient
    ensures g in GradientTable.Values
  {
    assert GradientTable["normal"] == DefaultGradient;
    match typeName
    case None => DefaultGradient
    case Some(name) =>
      var key := Lower(name);
      if key in GradientTable then GradientTable[key] else DefaultGradient
  }

  /** The lookup ignores case. */
  lemma TypeGradientIgnoresCase(name: string)
    ensures TypeGradient(Some(name)) == TypeGradient(Some(Lower(name)))
  {
    LowerIdempotent(name);
  }

  /** The name the card looks its gradient up by: the first type's name, or
      "normal" when there is no type or the name is empty. */
  function CardTypeName(p: Pokemon): string {
    if |p.types| > 0 && p.types[0].name != "" then p.types[0].name else "normal"
  }

  /** The card's background gradient, through the lookup as written: the
      "normal" entry without a usable first type, and the table entry or the
      default for any first type other than the two inherited names. */
  function CardGradient(p: Pokemon): (g: string)
    ensures |p.types| == 0 || p.types[0].name == "" ==> g == GradientTable["normal"]
    ensures Lower(CardTypeName(p)) !in {"constructor", "__proto__"} ==> g == TypeGradient(Some(CardTypeName(p))) && g in GradientTable.Values
  {
    assert Lower("normal") == "normal";
    TypeGradientAsWritten(Some(CardTypeName(p)))
  }

  /** The dex number as the card shows it: at least three characters, padded
      on the left with zeros. */
  function DexLabel(pokedexId: int): (shown: string)
    ensures |shown| == if |IntToString(pokedexId)| >= 3 then |IntToString(pokedexId)| else 3
    ensures shown[|shown| - |IntToString(pokedexId)|..] == IntToString(pokedexId)
    ensures forall i :: 0 <= i < |shown| - |IntToString(pokedexId)| ==> shown[i] == '0'
  {
    PadStart(IntToString(pokedexId), 3, '0')
  }

  /** The padded label still reads as the dex number. */
  lemma DexLabelReadsBack(pokedexId: nat)
    ensures ParseDecimal(DexLabel(pokedexId)) == Some(pokedexId)
  {
    var s := NatToDecimal(pokedexId);
    var shown := DexLabel(pokedexId);
    var z := shown[..|shown| - |s|];
    assert shown == z + s;
    assert forall c :: c in z ==> c == '0';
    LeadingZeros(z, s);
    DigitsValueOfDecimal(pokedexId);
  }
}
