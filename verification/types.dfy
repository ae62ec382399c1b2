/** The records the remote catalogue returns and the filter record the list
    page keeps, as declared in `types/pokemon.ts`. A field that the TypeScript
    declares optional (`?`) or nullable (`| null`) is an `Option`; `undefined`
    and `null` are both `None`. JavaScript numbers are modelled as integers. */
module PokemonTypes {
  import opened Options

  /** A type (Fire, Water, ...) with its integer key, the key the type filter uses. */
  datatype PokemonType = PokemonType(id: int, name: string, image: string)

  /** A lightweight pointer to an evolution. */
  datatype EvolutionRef = EvolutionRef(name: string, pokedexId: int)

  /** A lightweight pointer to a pre-evolution; the dex number arrives under
      `pokedexId` or, in an older schema, under `pokedexIdd`. */
  datatype PreEvolutionRef = PreEvolutionRef(name: string, pokedexId: Option<int>, pokedexIdd: Option<int>)

  /** The stats record. `specialAttackAlt` and `specialDefenseAlt` are the
      snake-case fields `special_attack` and `special_defense` of the older schema. */
  datatype StatBlock = StatBlock(
    hp: int,
    attack: int,
    defense: int,
    specialAttack: Option<int>,
    specialDefense: Option<int>,
    specialAttackAlt: Option<int>,
    specialDefenseAlt: Option<int>,
    speed: int)

  /** A catalogue record. `id` is the identity key the list deduplicates on;
      `pokedexId` is the dex number used for routing and display. The
      `api`-prefixed fields are the alternate names of the older schema. */
  datatype Pokemon = Pokemon(
    id: int,
    name: string,
    pokedexId: int,
    image: string,
    sprite: string,
    stats: StatBlock,
    types: seq<PokemonType>,
    evolutions: Option<seq<EvolutionRef>>,
    apiEvolutions: Option<seq<EvolutionRef>>,
    preEvolution: Option<PreEvolutionRef>,
    apiPreEvolution: Option<PreEvolutionRef>)

  /** The filter record shared by the list, the filter panel and the service. */
  /** The page size used when a request names none (`limit || 50`, `limit = 50`). */
  const DefaultLimit: int := 50

  datatype Filters = Filters(
    page: Option<int>,
    limit: Option<int>,
    typeId: Option<int>,
    types: Option<seq<int>>,
    name: Option<string>)
}
