/**
 * Resource kinds and the building cost tables
 * (Control/RessourcesManager.cs).
 */
module Resources {

  /** The resource enumeration; NoResource is the game's NONE, carried by the desert. */
  datatype Resource = Wood | Clay | Wheat | Sheep | Ore | NoResource

  /** The integer the game's enumeration assigns to each resource (WOOD = 0 ... NONE = 5). */
  function Index(r: Resource): (i: nat)
    ensures i <= 5
    ensures i == 5 <==> r == NoResource
  {
    match r
    case Wood => 0
    case Clay => 1
    case Wheat => 2
    case Sheep => 3
    case Ore => 4
    case NoResource => 5
  }

  /** The resource with a given enumeration value; the inverse of Index. */
  function FromIndex(i: nat): (r: Resource)
    requires i <= 5
    ensures Index(r) == i
  {
    if i == 0 then Wood
    else if i == 1 then Clay
    else if i == 2 then Wheat
    else if i == 3 then Sheep
    else if i == 4 then Ore
    else NoResource
  }

  lemma IndexInjective(r: Resource, s: Resource)
    requires Index(r) == Index(s)
    ensures r == s
  {
  }

  /** The five tradeable resources, in declaration order (the order a dictionary filled from them enumerates). */
  const Kinds: seq<Resource> := [Wood, Clay, Wheat, Sheep, Ore]

  const KindSet: set<Resource> := {Wood, Clay, Wheat, Sheep, Ore}

  lemma KindsAreAllButNone(r: Resource)
    ensures r in KindSet <==> r != NoResource
    ensures r in KindSet <==> r in Kinds
  {
  }

  /** A cost or an amount per resource, as the game's Dictionary<RessourceType, int>. */
  type Amounts = map<Resource, int>

  /** The things a player can pay for. */
  datatype Purchase = Road | Village | Town | DevelopmentCard

  /** The cost table of each purchase. */
  function CostOf(p: Purchase): (c: Amounts)
    ensures c.Keys <= KindSet
    ensures forall r :: r in c ==> c[r] > 0
  {
    match p
    case Road => map[Clay := 1, Wood := 1]
    case Village => map[Clay := 1, Wood := 1, Wheat := 1, Sheep := 1]
    case Town => map[Wheat := 2, Ore := 3]
    case DevelopmentCard => map[Wheat := 1, Sheep := 1, Ore := 1]
  }

  /** The number of resource cards a cost asks for in all. */
  function CardCount(c: Amounts, ks: seq<Resource>): int
  {
    if ks == [] then 0
    else (if ks[0] in c then c[ks[0]] else 0) + CardCount(c, ks[1..])
  }

  /** What each purchase asks for, resource by resource. */
  lemma CostTables()
    ensures CostOf(Road) == map[Clay := 1, Wood := 1]
    ensures CostOf(Village) == map[Clay := 1, Wood := 1, Wheat := 1, Sheep := 1]
    ensures CostOf(Town) == map[Wheat := 2, Ore := 3]
    ensures CostOf(DevelopmentCard) == map[Wheat := 1, Sheep := 1, Ore := 1]
    ensures CardCount(CostOf(Road), Kinds) == 2
    ensures CardCount(CostOf(Village), Kinds) == 4
    ensures CardCount(CostOf(Town), Kinds) == 5
    ensures CardCount(CostOf(DevelopmentCard), Kinds) == 3
  {
  }
}
