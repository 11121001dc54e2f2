/** The shared data model of the card album: departments, rarities, cards,
    achievements and the persisted per-user state. */
module Types {

  datatype Option<T> = None | Some(value: T)

  /** The eight departments, declared in the order the album and the roster use. */
  datatype Department =
    | DIRECTION | SALES | MARKETING | HR | FINANCE | OPERATIONS | IT | LOGISTICS

  /** The four rarities, from the most to the least common. */
  datatype Rarity = COMMON | RARE | EPIC | LEGENDARY

  /** The departments in declaration order (what `Object.values(Department)` yields). */
  const ALL_DEPARTMENTS: seq<Department> :=
    [DIRECTION, SALES, MARKETING, HR, FINANCE, OPERATIONS, IT, LOGISTICS]

  const ALL_RARITIES: seq<Rarity> := [COMMON, RARE, EPIC, LEGENDARY]

  /** The string value each department carries at run time. */
  function DepartmentValue(d: Department): string
  {
    match d
    case DIRECTION => "Dirección"
    case SALES => "Ventas"
    case MARKETING => "Marketing"
    case HR => "Recursos Humanos"
    case FINANCE => "Finanzas"
    case OPERATIONS => "Operaciones"
    case IT => "Sistemas"
    case LOGISTICS => "Logística"
  }

  function RarityValue(r: Rarity): string
  {
    match r
    case COMMON => "Común"
    case RARE => "Rara"
    case EPIC => "Épica"
    case LEGENDARY => "Legendaria"
  }

  /** Position of a department in the enumeration. */
  function DepartmentIndex(d: Department): (i: nat)
    ensures i < |ALL_DEPARTMENTS| && ALL_DEPARTMENTS[i] == d
  {
    match d
    case DIRECTION => 0
    case SALES => 1
    case MARKETING => 2
    case HR => 3
    case FINANCE => 4
    case OPERATIONS => 5
    case IT => 6
    case LOGISTICS => 7
  }

  /** Position of a rarity in the enumeration. */
  function RarityIndex(r: Rarity): (i: nat)
    ensures i < |ALL_RARITIES| && ALL_RARITIES[i] == r
  {
    match r
    case COMMON => 0
    case RARE => 1
    case EPIC => 2
    case LEGENDARY => 3
  }

  /** Reads a department back from its run-time string value. */
  function DepartmentOfValue(s: string): Option<Department>
  {
    if s == "Dirección" then Some(DIRECTION)
    else if s == "Ventas" then Some(SALES)
    else if s == "Marketing" then Some(MARKETING)
    else if s == "Recursos Humanos" then Some(HR)
    else if s == "Finanzas" then Some(FINANCE)
    else if s == "Operaciones" then Some(OPERATIONS)
    else if s == "Sistemas" then Some(IT)
    else if s == "Logística" then Some(LOGISTICS)
    else None
  }

  /** The department enumeration is closed: exactly eight values, each listed once,
      and each run-time string value names exactly one department. */
  lemma DepartmentsEnumerated()
    ensures |ALL_DEPARTMENTS| == 8
    ensures forall i, j :: 0 <= i < j < |ALL_DEPARTMENTS| ==> ALL_DEPARTMENTS[i] != ALL_DEPARTMENTS[j]
    ensures forall d: Department :: DepartmentIndex(d) < 8
    ensures forall d: Department :: DepartmentOfValue(DepartmentValue(d)) == Some(d)
  {
    forall d: Department ensures DepartmentOfValue(DepartmentValue(d)) == Some(d) {
      match d
      case DIRECTION =>
      case SALES =>
      case MARKETING =>
      case HR =>
      case FINANCE =>
      case OPERATIONS =>
      case IT =>
      case LOGISTICS =>
    }
  }

  /** Two departments with the same string value are the same department. */
  lemma DepartmentValueInjective(d: Department, e: Department)
    requires DepartmentValue(d) == DepartmentValue(e)
    ensures d == e
  {
    DepartmentsEnumerated();
  }

  /** The rarity enumeration is closed: exactly four values, each listed once. */
  lemma RaritiesEnumerated()
    ensures |ALL_RARITIES| == 4
    ensures forall i, j :: 0 <= i < j < |ALL_RARITIES| ==> ALL_RARITIES[i] != ALL_RARITIES[j]
    ensures forall r: Rarity :: RarityIndex(r) < 4
  {
  }

  /** One catalogue entry. `id` is a number; department and rarity come from the
      closed enumerations above. */
  datatype Card = Card(
    id: int,
    name: string,
    role: string,
    department: Department,
    rarity: Rarity,
    imageUrl: string,
    description: string,
    power: int)

  datatype Achievement = Achievement(
    id: string,
    title: string,
    description: string,
    icon: string,
    rewardPacks: int)

  /** The persisted state of one user. `collection` lists owned card ids,
      `duplicates` maps a card id to its count of extra copies, `lastPackOpened`
      is null or a timestamp in milliseconds, `packsAvailable` counts waiting packs. */
  datatype UserState = UserState(
    name: string,
    email: string,
    isRegistered: bool,
    collection: seq<int>,
    duplicates: map<int, int>,
    lastPackOpened: Option<int>,
    achievements: seq<string>,
    packsAvailable: int)

  /** `record[key] || 0` for a number-valued record. */
  function GetOr(m: map<int, int>, key: int, default: int): int
  {
    if key in m then m[key] else default
  }
}
