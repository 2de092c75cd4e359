/**
 * The record shapes of the veto server: game modes, maps, the catalog that
 * relates them, a series with its rounds and bans, and the actions of the
 * older veto endpoint. Database ids are natural numbers; a foreign key that
 * may be null is an `Option`.
 */
module Models {
  import opened Wrappers
  import opened Text

  type ModeId = nat
  type MapId = nat

  // ---- Enumerations (Django TextChoices) ----

  datatype SeriesState = IDLE | SERIES_SETUP | BAN_PHASE | PICK_WINDOW | SERIES_COMPLETE | ABORTED

  datatype SlotType = OBJECTIVE | SLAYER

  datatype BanKind = OBJECTIVE_COMBO | SLAYER_MAP

  /** The stored value of each series state. */
  function StateValue(s: SeriesState): string {
    match s
    case IDLE => "IDLE"
    case SERIES_SETUP => "SERIES_SETUP"
    case BAN_PHASE => "BAN_PHASE"
    case PICK_WINDOW => "PICK_WINDOW"
    case SERIES_COMPLETE => "SERIES_COMPLETE"
    case ABORTED => "ABORTED"
  }

  /** The state a stored value stands for; any other text is not a state. */
  function ParseState(v: string): (r: Option<SeriesState>)
    ensures r.Some? ==> StateValue(r.value) == v
  {
    if v == "IDLE" then Some(IDLE)
    else if v == "SERIES_SETUP" then Some(SERIES_SETUP)
    else if v == "BAN_PHASE" then Some(BAN_PHASE)
    else if v == "PICK_WINDOW" then Some(PICK_WINDOW)
    else if v == "SERIES_COMPLETE" then Some(SERIES_COMPLETE)
    else if v == "ABORTED" then Some(ABORTED)
    else None
  }

  /**
   * The six states and their six stored values are in one-to-one
   * correspondence: every state reads back as itself, and exactly six texts
   * are states.
   */
  lemma StateValuesRoundTrip(s: SeriesState, v: string)
    ensures ParseState(StateValue(s)) == Some(s)
    ensures ParseState(v).Some? <==>
      v in {"IDLE", "SERIES_SETUP", "BAN_PHASE", "PICK_WINDOW", "SERIES_COMPLETE", "ABORTED"}
  {
  }

  function SlotValue(t: SlotType): string {
    match t
    case OBJECTIVE => "OBJECTIVE"
    case SLAYER => "SLAYER"
  }

  function KindValue(k: BanKind): string {
    match k
    case OBJECTIVE_COMBO => "OBJECTIVE_COMBO"
    case SLAYER_MAP => "SLAYER_MAP"
  }

  /** The team codes "A" and "B" stored in `pick_by`, `by_team` and `turn`. */
  datatype Team = A | B

  function TeamValue(t: Team): string {
    match t
    case A => "A"
    case B => "B"
  }

  /** `pick_by` is the empty string until a pick is made. */
  function PickByValue(t: Option<Team>): string {
    match t
    case Some(team) => TeamValue(team)
    case None => ""
  }

  // ---- Catalog: GameMode, Map and their many-to-many relation ----

  datatype GameMode = GameMode(name: string, isObjective: bool)

  datatype MapEntry = MapEntry(name: string, modes: set<ModeId>)

  datatype Catalog = Catalog(modes: map<ModeId, GameMode>, maps: map<MapId, MapEntry>)

  /**
   * What the database guarantees of the catalog: every map's modes exist,
   * and mode names and map names are unique.
   */
  ghost predicate WellFormed(c: Catalog) {
    && (forall p :: p in c.maps ==> c.maps[p].modes <= c.modes.Keys)
    && (forall x, y :: x in c.modes && y in c.modes && c.modes[x].name == c.modes[y].name ==> x == y)
    && (forall p, q :: p in c.maps && q in c.maps && c.maps[p].name == c.maps[q].name ==> p == q)
  }

  /** The legality relation: mode `k` is playable on map `p`. */
  predicate Supports(c: Catalog, p: MapId, k: ModeId) {
    p in c.maps && k in c.maps[p].modes
  }

  /** The map has a mode with the given name among its modes. */
  predicate HasModeNamed(c: Catalog, p: MapId, name: string)
    requires p in c.maps
  {
    exists k :: k in c.maps[p].modes && k in c.modes && c.modes[k].name == name
  }

  /**
   * `GameMode.objects.create(name=..., [is_objective=...])` under a fresh id:
   * the flag defaults to false, and a name already taken violates the
   * unique constraint.
   */
  function CreateGameMode(c: Catalog, id: ModeId, name: string, isObjective: Option<bool>): (r: Result<Catalog, string>)
    requires WellFormed(c) && id !in c.modes
    ensures r.Ok? <==> (forall k :: k in c.modes ==> c.modes[k].name != name)
    ensures r.Ok? ==> WellFormed(r.value) && r.value.maps == c.maps
    ensures r.Ok? ==> r.value.modes.Keys == c.modes.Keys + {id}
    ensures r.Ok? ==> r.value.modes[id].name == name
    ensures r.Ok? ==> (r.value.modes[id].isObjective <==> isObjective == Some(true))
  {
    if exists k :: k in c.modes && c.modes[k].name == name then Fail("IntegrityError")
    else
      var flag := match isObjective case Some(f) => f case None => false;
      Ok(c.(modes := c.modes[id := GameMode(name, flag)]))
  }

  /**
   * `Map.objects.create(name=...)` under a fresh id, with no modes yet; a
   * name already taken violates the unique constraint.
   */
  function CreateMap(c: Catalog, id: MapId, name: string): (r: Result<Catalog, string>)
    requires WellFormed(c) && id !in c.maps
    ensures r.Ok? <==> (forall p :: p in c.maps ==> c.maps[p].name != name)
    ensures r.Ok? ==> WellFormed(r.value) && r.value.modes == c.modes
    ensures r.Ok? ==> r.value.maps.Keys == c.maps.Keys + {id} && r.value.maps[id] == MapEntry(name, {})
  {
    if exists p :: p in c.maps && c.maps[p].name == name then Fail("IntegrityError")
    else Ok(c.(maps := c.maps[id := MapEntry(name, {})]))
  }

  // ---- Series and its children ----

  /** The turn descriptor: `{}` or `{"team", "action", "kind"}`. */
  datatype TurnAction = BAN | PICK

  datatype Turn = NoTurn | Turn(team: Team, action: TurnAction, kind: BanKind)

  /**
   * One game slot. Its `order` is its position in the series' round list,
   * which is what makes (series, order) unique and the list ordered.
   */
  datatype Round = Round(
    slotType: SlotType,
    mode: Option<ModeId>,
    pickBy: Option<Team>,
    pickMap: Option<MapId>,
    locked: bool)

  /** A freshly created round: every pick field at its default. */
  function EmptyRound(t: SlotType): (r: Round)
    ensures r.slotType == t && r.pickMap.None? && r.mode.None? && r.pickBy.None? && !r.locked
  {
    Round(t, None, None, None, false)
  }

  datatype Ban = Ban(
    stepIndex: nat,
    byTeam: Team,
    kind: BanKind,
    banMap: MapId,
    objectiveMode: Option<ModeId>)

  /** A series row together with its rounds and bans. */
  datatype SeriesRecord = SeriesRecord(
    teamA: string,
    teamB: string,
    state: SeriesState,
    ruleset: string,
    seriesType: string,
    roundIndex: nat,
    banIndex: nat,
    turn: Turn,
    rounds: seq<Round>,
    bans: seq<Ban>)

  /** `Series.objects.create(team_a=..., team_b=...)`: every other field at its default. */
  function NewSeries(teamA: string, teamB: string): (s: SeriesRecord)
    ensures s.teamA == teamA && s.teamB == teamB
    ensures s.state == IDLE && s.roundIndex == 0 && s.banIndex == 0 && s.turn == NoTurn
    ensures s.ruleset == "" && s.seriesType == "" && s.rounds == [] && s.bans == []
  {
    SeriesRecord(teamA, teamB, IDLE, "", "", 0, 0, NoTurn, [], [])
  }

  // ---- The actions of the veto endpoint ----

  datatype ActionType = BanAction | PickAction

  datatype Action = Action(step: nat, actionType: ActionType, team: Team, actionMap: MapId, actionMode: ModeId)

  // ---- __str__ of rounds and bans ----

  const Bullet: string := " • "

  /**
   * `SeriesRound.__str__`: "Game n: SLOT • mode on map (team)" once picked,
   * "Game n: SLOT • (pending)" before.
   */
  function RoundLabel(order: nat, r: Round, c: Catalog): (s: string)
    requires r.pickMap.Some? ==> r.pickMap.value in c.maps
    requires r.mode.Some? ==> r.mode.value in c.modes
  {
    var base := "Game " + NatToString(order + 1) + ": " + SlotValue(r.slotType);
    if r.pickMap.Some? then
      var modeText := if r.mode.Some? then c.modes[r.mode.value].name else "—";
      base + Bullet + modeText + " on " + c.maps[r.pickMap.value].name + " (" + PickByValue(r.pickBy) + ")"
    else
      base + Bullet + "(pending)"
  }

  predicate EndsWith(s: string, suffix: string) {
    |suffix| <= |s| && s[|s| - |suffix|..] == suffix
  }

  /** A round's text ends in "(pending)" exactly when no map has been picked for it. */
  lemma RoundLabelPending(order: nat, r: Round, c: Catalog)
    requires r.pickMap.Some? ==> r.pickMap.value in c.maps
    requires r.mode.Some? ==> r.mode.value in c.modes
    ensures EndsWith(RoundLabel(order, r, c), "(pending)") <==> r.pickMap.None?
  {
    var s := RoundLabel(order, r, c);
    if r.pickMap.Some? {
      var tail := " (" + PickByValue(r.pickBy) + ")";
      assert s[|s| - |tail|..] == tail;
      assert s[|s| - 2] == tail[|tail| - 2];
      assert tail[|tail| - 2] != 'g';
      assert "(pending)"[7] == 'g';
    }
  }

  /** The text a mode shows in an objective ban: its name, or "Objective" when absent. */
  function BanModeText(b: Ban, c: Catalog): string
    requires b.objectiveMode.Some? ==> b.objectiveMode.value in c.modes
  {
    if b.objectiveMode.Some? then c.modes[b.objectiveMode.value].name else "Objective"
  }

  /** `SeriesBan.__str__`. */
  function BanLabel(b: Ban, c: Catalog): string
    requires b.banMap in c.maps
    requires b.objectiveMode.Some? ==> b.objectiveMode.value in c.modes
  {
    var tail := " on " + c.maps[b.banMap].name + " (step " + NatToString(b.stepIndex) + ")";
    if b.kind == SLAYER_MAP then TeamValue(b.byTeam) + " banned Slayer" + tail
    else TeamValue(b.byTeam) + " banned " + BanModeText(b, c) + tail
  }

  /** The "T banned Slayer on M (step n)" text of a ban. */
  function SlayerBanText(b: Ban, c: Catalog): string
    requires b.banMap in c.maps
  {
    TeamValue(b.byTeam) + " banned Slayer on " + c.maps[b.banMap].name + " (step " + NatToString(b.stepIndex) + ")"
  }

  /**
   * A ban prints in the "banned Slayer on" form exactly when it is a Slayer
   * map ban, or an objective-combo ban whose mode is itself named "Slayer".
   */
  lemma BanLabelSlayerForm(b: Ban, c: Catalog)
    requires b.banMap in c.maps
    requires b.objectiveMode.Some? ==> b.objectiveMode.value in c.modes
    ensures BanLabel(b, c) == SlayerBanText(b, c) <==>
      (b.kind == SLAYER_MAP || (b.objectiveMode.Some? && c.modes[b.objectiveMode.value].name == "Slayer"))
  {
    var head := TeamValue(b.byTeam) + " banned ";
    var tail := " on " + c.maps[b.banMap].name + " (step " + NatToString(b.stepIndex) + ")";
    assert SlayerBanText(b, c) == head + "Slayer" + tail;
    if b.kind == OBJECTIVE_COMBO {
      var x := BanModeText(b, c);
      assert BanLabel(b, c) == head + x + tail;
      if head + x + tail == head + "Slayer" + tail {
        assert |x| == 6;
        assert x == (head + x + tail)[|head|..|head| + 6];
        assert "Slayer" == (head + "Slayer" + tail)[|head|..|head| + 6];
      }
    }
  }
}
