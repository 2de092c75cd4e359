/**
 * The veto ceremony of one series as values: the fixed ban schedule and
 * round-slot templates, the turn the series expects in each state, the
 * invariant every entry point keeps, and each entry point as a function from
 * the series before the call to the series after it or to the error it
 * raises. The `Series` class in module TsdMachine performs these steps in
 * place and is proved to agree with them.
 */
module TsdSpec {
  import opened Wrappers
  import opened Models

  /** The two domain errors, and the `DoesNotExist` of a lookup by an unknown id. */
  datatype Error = GuardError(msg: string) | TurnError(msg: string) | NotFound(model: string)

  // ---- Ceremony definition ----

  /** Three-two split of objective-combo bans (A first), then one Slayer-map ban each, B first. */
  const BanSchedule: seq<(Team, BanKind)> := [
    (A, OBJECTIVE_COMBO),
    (B, OBJECTIVE_COMBO),
    (A, OBJECTIVE_COMBO),
    (B, OBJECTIVE_COMBO),
    (A, OBJECTIVE_COMBO),
    (B, SLAYER_MAP),
    (A, SLAYER_MAP)
  ]

  const RoundSlots: map<string, seq<SlotType>> := map[
    "Bo3" := [OBJECTIVE, SLAYER, OBJECTIVE],
    "Bo5" := [OBJECTIVE, SLAYER, OBJECTIVE, OBJECTIVE, SLAYER],
    "Bo7" := [OBJECTIVE, SLAYER, OBJECTIVE, OBJECTIVE, SLAYER, OBJECTIVE, SLAYER]
  ]

  /** The team that picks game `g` (1-based): B for odd games, A for even ones. */
  function PickingTeamForGame(g: int): Team {
    if g % 2 == 1 then B else A
  }

  /** Team B picks the first game, and the picking team alternates from game to game. */
  lemma PickingTeamAlternates(g: int)
    ensures PickingTeamForGame(1) == B
    ensures PickingTeamForGame(g + 1) != PickingTeamForGame(g)
    ensures PickingTeamForGame(g) == B <==> exists k :: g == 2 * k + 1
  {
    if g % 2 == 1 {
      assert g == 2 * (g / 2) + 1;
    } else {
      assert g == 2 * (g / 2);
    }
  }

  /** The pick kind a round's slot calls for. */
  function KindOf(t: SlotType): BanKind {
    if t == OBJECTIVE then OBJECTIVE_COMBO else SLAYER_MAP
  }

  function BanTurn(i: nat): Turn
    requires i < |BanSchedule|
  {
    Turn(BanSchedule[i].0, BAN, BanSchedule[i].1)
  }

  /** The pick turn of the round at 0-based `ri`, whose game number is `ri + 1`. */
  function PickTurn(ri: nat, t: SlotType): Turn {
    Turn(PickingTeamForGame(ri + 1), PICK, KindOf(t))
  }

  /** The turn a series should show, as a function of its state, indices and rounds. */
  function ExpectedTurn(s: SeriesRecord): Turn {
    match s.state
    case BAN_PHASE =>
      if s.banIndex < |BanSchedule| then BanTurn(s.banIndex) else NoTurn
    case PICK_WINDOW =>
      if s.roundIndex < |s.rounds| then PickTurn(s.roundIndex, s.rounds[s.roundIndex].slotType) else NoTurn
    case _ => NoTurn
  }

  /** The rounds `confirm_tsd` creates for a template: one unpicked round per slot. */
  function SlotRounds(slots: seq<SlotType>): (rs: seq<Round>)
    ensures |rs| == |slots|
    ensures forall i :: 0 <= i < |rs| ==> rs[i] == EmptyRound(slots[i])
  {
    seq(|slots|, i requires 0 <= i < |slots| => EmptyRound(slots[i]))
  }

  /** The slot types of a series' rounds, in round order. */
  function SlotsOf(rs: seq<Round>): (slots: seq<SlotType>)
    ensures |slots| == |rs|
    ensures forall i :: 0 <= i < |rs| ==> slots[i] == rs[i].slotType
  {
    seq(|rs|, i requires 0 <= i < |rs| => rs[i].slotType)
  }

  // ---- Queries over bans and rounds ----

  predicate ComboBanned(bans: seq<Ban>, k: ModeId, p: MapId) {
    exists i :: 0 <= i < |bans| && bans[i].kind == OBJECTIVE_COMBO && bans[i].objectiveMode == Some(k) && bans[i].banMap == p
  }

  predicate SlayerBanned(bans: seq<Ban>, p: MapId) {
    exists i :: 0 <= i < |bans| && bans[i].kind == SLAYER_MAP && bans[i].banMap == p
  }

  /** Some round of the series already has `p` as its picked map. */
  predicate MapUsed(rounds: seq<Round>, p: MapId) {
    exists i :: 0 <= i < |rounds| && rounds[i].pickMap == Some(p)
  }

  // ---- The invariant ----

  /** Each ban sits at its own step and carries the team and kind the schedule names there. */
  ghost predicate BansFollowSchedule(bans: seq<Ban>) {
    && |bans| <= |BanSchedule|
    && forall i :: 0 <= i < |bans| ==>
      && bans[i].stepIndex == i
      && bans[i].byTeam == BanSchedule[i].0
      && bans[i].kind == BanSchedule[i].1
      && (bans[i].objectiveMode.Some? <==> bans[i].kind == OBJECTIVE_COMBO)
  }

  /** No combo is banned twice and no map is Slayer-banned twice. */
  ghost predicate BansDistinct(bans: seq<Ban>) {
    forall i, j :: 0 <= i < j < |bans| ==>
      !(bans[i].kind == bans[j].kind && bans[i].banMap == bans[j].banMap && bans[i].objectiveMode == bans[j].objectiveMode)
  }

  /** No map is the picked map of two rounds. */
  ghost predicate PicksDistinct(rounds: seq<Round>) {
    forall i, j :: 0 <= i < j < |rounds| && rounds[i].pickMap.Some? ==> rounds[i].pickMap != rounds[j].pickMap
  }

  /** A round filled by a pick: mode, picking team (the one the alternating rule names), map, locked. */
  ghost predicate PickedRound(r: Round, i: nat) {
    r.pickMap.Some? && r.mode.Some? && r.pickBy == Some(PickingTeamForGame(i + 1)) && r.locked
  }

  ghost predicate Unpicked(r: Round) {
    r == EmptyRound(r.slotType)
  }

  /**
   * The rounds follow one of the series-type templates, slot for slot. The
   * stored `seriesType` need not name that template: `confirm_tsd` does not
   * save it (see `ConfirmTsdLeavesTypeUnset`).
   */
  ghost predicate Configured(s: SeriesRecord) {
    SlotsOf(s.rounds) in RoundSlots.Values
  }

  /** Every template has a first round, and it is an objective slot. */
  lemma ConfiguredRounds(s: SeriesRecord)
    requires Configured(s)
    ensures |s.rounds| > 0 && s.rounds[0].slotType == OBJECTIVE
  {
    var t :| t in RoundSlots && RoundSlots[t] == SlotsOf(s.rounds);
    assert |RoundSlots[t]| > 0 && RoundSlots[t][0] == OBJECTIVE;
  }

  /** Replacing a round by one of the same slot type keeps the slot sequence. */
  lemma SlotsOfUpdate(rs: seq<Round>, i: nat, r: Round)
    requires i < |rs| && r.slotType == rs[i].slotType
    ensures SlotsOf(rs[i := r]) == SlotsOf(rs)
  {
  }

  /**
   * The invariant of a series between two calls: the cached turn agrees with
   * the state, the bans follow the schedule in order, nothing is banned twice,
   * no map is picked twice, and each state has the rounds and bans its phase
   * of the ceremony calls for. ABORTED is never produced.
   */
  ghost predicate Valid(s: SeriesRecord) {
    && s.turn == ExpectedTurn(s)
    && BansFollowSchedule(s.bans)
    && BansDistinct(s.bans)
    && PicksDistinct(s.rounds)
    && (forall i :: 0 <= i < |s.rounds| ==> PickedRound(s.rounds[i], i) || Unpicked(s.rounds[i]))
    && match s.state
       case IDLE | SERIES_SETUP =>
         s.rounds == [] && s.bans == [] && s.banIndex == 0 && s.roundIndex == 0
         && s.seriesType == "" && s.ruleset == ""
       case BAN_PHASE =>
         && Configured(s) && s.banIndex == |s.bans| < |BanSchedule| && s.roundIndex == 0
         && forall i :: 0 <= i < |s.rounds| ==> Unpicked(s.rounds[i])
       case PICK_WINDOW =>
         && Configured(s) && s.banIndex == |s.bans| == |BanSchedule| && s.roundIndex < |s.rounds|
         && (forall i :: 0 <= i < s.roundIndex ==> PickedRound(s.rounds[i], i))
         && (forall i :: s.roundIndex < i < |s.rounds| ==> Unpicked(s.rounds[i]))
       case SERIES_COMPLETE =>
         && Configured(s) && s.banIndex == |s.bans| == |BanSchedule| && s.roundIndex == |s.rounds| - 1
         && (forall i :: 0 <= i < |s.rounds| ==> PickedRound(s.rounds[i], i))
       case ABORTED => false
  }

  /** A new series satisfies the invariant. */
  lemma NewSeriesValid(teamA: string, teamB: string)
    ensures Valid(NewSeries(teamA, teamB))
  {
  }

  // ---- Helpers of the entry points ----

  /**
   * `_expect_turn`: the caller's team, action and kind must be the stored
   * turn; a wrong team or action is "Not your turn", a wrong kind names the
   * kind asked for.
   */
  function ExpectTurn(t: Turn, team: Team, action: TurnAction, kind: BanKind): (e: Option<Error>)
    ensures e.None? <==> t == Turn(team, action, kind)
    ensures e.Some? ==> e.value.TurnError?
  {
    if t.NoTurn? || t.team != team || t.action != action then Some(TurnError("Not your turn"))
    else if t.kind != kind then Some(TurnError("Wrong action kind (expected " + KindValue(kind) + ")"))
    else None
  }

  /**
   * `_advance_ban_turn`: the next schedule entry, or, after the seventh ban,
   * the pick window at round 0 with team B to pick.
   */
  function AdvanceBanTurn(s: SeriesRecord): (r: SeriesRecord)
    requires s.banIndex < |BanSchedule|
    requires s.banIndex + 1 == |BanSchedule| ==> |s.rounds| > 0
    ensures r.banIndex == s.banIndex + 1
    ensures r.rounds == s.rounds && r.bans == s.bans && r.teamA == s.teamA && r.teamB == s.teamB
    ensures r.seriesType == s.seriesType && r.ruleset == s.ruleset
    ensures r.banIndex < |BanSchedule| ==> r.state == s.state && r.roundIndex == s.roundIndex && r.turn == BanTurn(r.banIndex)
    ensures r.banIndex == |BanSchedule| ==>
      r.state == PICK_WINDOW && r.roundIndex == 0 && r.turn == Turn(B, PICK, KindOf(s.rounds[0].slotType))
  {
    var idx := s.banIndex + 1;
    if idx < |BanSchedule| then
      s.(banIndex := idx, turn := BanTurn(idx))
    else
      s.(banIndex := idx, state := PICK_WINDOW, roundIndex := 0, turn := PickTurn(0, s.rounds[0].slotType))
  }

  /**
   * `_advance_round_after_pick`: the next round with the team the
   * alternating rule names, or, after the last round, SERIES_COMPLETE with
   * no turn.
   */
  function AdvanceRound(s: SeriesRecord): (r: SeriesRecord)
    requires s.roundIndex < |s.rounds|
    ensures r.rounds == s.rounds && r.bans == s.bans && r.banIndex == s.banIndex
    ensures r.teamA == s.teamA && r.teamB == s.teamB && r.seriesType == s.seriesType && r.ruleset == s.ruleset
    ensures s.roundIndex < |s.rounds| - 1 ==>
      && r.state == PICK_WINDOW && r.roundIndex == s.roundIndex + 1
      && r.turn == Turn(PickingTeamForGame(s.roundIndex + 2), PICK, KindOf(s.rounds[s.roundIndex + 1].slotType))
    ensures s.roundIndex == |s.rounds| - 1 ==>
      r.state == SERIES_COMPLETE && r.roundIndex == s.roundIndex && r.turn == NoTurn
  {
    var last := |s.rounds| - 1;
    if s.roundIndex < last then
      var ri := s.roundIndex + 1;
      s.(roundIndex := ri, state := PICK_WINDOW, turn := PickTurn(ri, s.rounds[ri].slotType))
    else
      s.(state := SERIES_COMPLETE, turn := NoTurn)
  }

  /** The round as a pick fills it. */
  function FilledRound(r: Round, k: ModeId, team: Team, p: MapId): Round {
    r.(mode := Some(k), pickBy := Some(team), pickMap := Some(p), locked := true)
  }

  /** The one mode named "Slayer", which `GameMode.objects.get(name="Slayer")` returns. */
  function SlayerMode(c: Catalog): (k: ModeId)
    requires WellFormed(c)
    requires exists k :: k in c.modes && c.modes[k].name == "Slayer"
    ensures k in c.modes && c.modes[k].name == "Slayer"
    ensures forall j :: j in c.modes && c.modes[j].name == "Slayer" ==> j == k
  {
    var k :| k in c.modes && c.modes[k].name == "Slayer"; k
  }

  // ---- Entry points ----

  /** `assign_roles`: only in IDLE; stores both team names and moves to SERIES_SETUP. */
  function AssignRoles(s: SeriesRecord, teamA: string, teamB: string): (r: Result<SeriesRecord, Error>)
    ensures r.Ok? <==> s.state == IDLE
    ensures r.Fail? ==> r.error == GuardError("Roles can only be assigned in IDLE")
    ensures r.Ok? ==> r.value.state == SERIES_SETUP && r.value.teamA == teamA && r.value.teamB == teamB
    ensures r.Ok? ==> r.value.rounds == s.rounds && r.value.bans == s.bans && r.value.turn == s.turn
    ensures r.Ok? ==> r.value.roundIndex == s.roundIndex && r.value.banIndex == s.banIndex
    ensures r.Ok? ==> r.value.seriesType == s.seriesType && r.value.ruleset == s.ruleset
  {
    if s.state != IDLE then Fail(GuardError("Roles can only be assigned in IDLE"))
    else Ok(s.(teamA := teamA, teamB := teamB, state := SERIES_SETUP))
  }

  /**
   * `confirm_tsd`: only from IDLE or SERIES_SETUP and only for a known series
   * type. Replaces the rounds by one unpicked round per template slot, and
   * opens the ban phase with team A to ban an objective combo. The series
   * type and ruleset are set on the fetched row but are not among the fields
   * `_start_ban_phase` saves, so the stored row keeps its old values.
   */
  function ConfirmTsd(s: SeriesRecord, seriesType: string, ruleset: string): (r: Result<SeriesRecord, Error>)
    ensures r.Ok? <==> (s.state in {IDLE, SERIES_SETUP} && seriesType in RoundSlots)
    ensures s.state !in {IDLE, SERIES_SETUP} ==> r == Fail(GuardError("Series already configured"))
    ensures s.state in {IDLE, SERIES_SETUP} && seriesType !in RoundSlots ==> r == Fail(GuardError("Invalid series_type"))
    ensures r.Ok? ==>
      && |r.value.rounds| == |RoundSlots[seriesType]|
      && (forall i :: 0 <= i < |r.value.rounds| ==>
            r.value.rounds[i].slotType == RoundSlots[seriesType][i] && r.value.rounds[i].pickMap.None?)
      && r.value.state == BAN_PHASE && r.value.banIndex == 0 && r.value.turn == Turn(A, BAN, OBJECTIVE_COMBO)
      && r.value.seriesType == s.seriesType && r.value.ruleset == s.ruleset && r.value.bans == s.bans
    ensures r.Ok? ==>
      && r.value.rounds == SlotRounds(RoundSlots[seriesType])
      && r.value.roundIndex == s.roundIndex && r.value.teamA == s.teamA && r.value.teamB == s.teamB
  {
    if s.state !in {IDLE, SERIES_SETUP} then Fail(GuardError("Series already configured"))
    else if seriesType !in RoundSlots then Fail(GuardError("Invalid series_type"))
    else
      Ok(s.(rounds := SlotRounds(RoundSlots[seriesType]), state := BAN_PHASE, banIndex := 0, turn := BanTurn(0)))
  }

  /**
   * `confirm_tsd` as evidently intended: the same step, with the series type
   * and ruleset saved along with the rest.
   */
  function ConfirmTsdSaved(s: SeriesRecord, seriesType: string, ruleset: string): (r: Result<SeriesRecord, Error>)
    ensures r.Ok? <==> ConfirmTsd(s, seriesType, ruleset).Ok?
    ensures r.Fail? ==> r == ConfirmTsd(s, seriesType, ruleset)
    ensures r.Ok? ==> r.value.seriesType == seriesType && r.value.ruleset == ruleset
    ensures r.Ok? ==> r.value.(seriesType := s.seriesType, ruleset := s.ruleset) == ConfirmTsd(s, seriesType, ruleset).value
  {
    match ConfirmTsd(s, seriesType, ruleset)
    case Ok(v) => Ok(v.(seriesType := seriesType, ruleset := ruleset))
    case Fail(e) => Fail(e)
  }

  /**
   * `ban_objective_combo`: the turn check comes first; then the phase, an
   * objective mode, a map that supports it, a combo not banned before. The
   * ban is recorded at the current step, by the caller.
   */
  function BanObjectiveCombo(s: SeriesRecord, c: Catalog, team: Team, k: ModeId, p: MapId): (r: Result<SeriesRecord, Error>)
    requires Valid(s)
    ensures s.turn != Turn(team, BAN, OBJECTIVE_COMBO) <==> (r.Fail? && r.error.TurnError?)
    ensures r.Ok? <==>
      && s.turn == Turn(team, BAN, OBJECTIVE_COMBO)
      && k in c.modes && c.modes[k].isObjective && Supports(c, p, k)
      && !ComboBanned(s.bans, k, p)
    ensures s.turn == Turn(team, BAN, OBJECTIVE_COMBO) && k !in c.modes ==> r == Fail(NotFound("GameMode"))
    ensures s.turn == Turn(team, BAN, OBJECTIVE_COMBO) && k in c.modes && c.modes[k].isObjective && p !in c.maps ==>
      r == Fail(NotFound("Map"))
    ensures r.Fail? && !r.error.TurnError? ==>
      (r.error.NotFound? <==> k !in c.modes || (c.modes[k].isObjective && p !in c.maps))
    ensures r.Ok? ==> r.value.bans == s.bans + [Ban(s.banIndex, team, OBJECTIVE_COMBO, p, Some(k))]
    ensures r.Ok? ==> r.value == AdvanceBanTurn(s.(bans := r.value.bans))
  {
    var e := ExpectTurn(s.turn, team, BAN, OBJECTIVE_COMBO);
    if e.Some? then Fail(e.value)
    else if s.state != BAN_PHASE then Fail(GuardError("Not in ban phase"))
    else if k !in c.modes then Fail(NotFound("GameMode"))
    else if !c.modes[k].isObjective then Fail(GuardError("Mode must be objective"))
    else if p !in c.maps then Fail(NotFound("Map"))
    else if k !in c.maps[p].modes then Fail(GuardError("Map does not support this objective"))
    else if ComboBanned(s.bans, k, p) then Fail(GuardError("That combo is already banned"))
    else Ok(AdvanceBanTurn(s.(bans := s.bans + [Ban(s.banIndex, team, OBJECTIVE_COMBO, p, Some(k))])))
  }

  /**
   * `ban_slayer_map`: the turn check first; then the phase, a map that has a
   * mode named "Slayer", and no Slayer ban of that map yet.
   */
  function BanSlayerMap(s: SeriesRecord, c: Catalog, team: Team, p: MapId): (r: Result<SeriesRecord, Error>)
    requires Valid(s)
    ensures s.turn != Turn(team, BAN, SLAYER_MAP) <==> (r.Fail? && r.error.TurnError?)
    ensures r.Ok? <==>
      && s.turn == Turn(team, BAN, SLAYER_MAP)
      && p in c.maps && HasModeNamed(c, p, "Slayer")
      && !SlayerBanned(s.bans, p)
    ensures s.turn == Turn(team, BAN, SLAYER_MAP) && p !in c.maps ==> r == Fail(NotFound("Map"))
    ensures r.Fail? && !r.error.TurnError? ==> (r.error.NotFound? <==> p !in c.maps)
    ensures r.Ok? ==> r.value.bans == s.bans + [Ban(s.banIndex, team, SLAYER_MAP, p, None)]
    ensures r.Ok? ==> r.value == AdvanceBanTurn(s.(bans := r.value.bans))
  {
    var e := ExpectTurn(s.turn, team, BAN, SLAYER_MAP);
    if e.Some? then Fail(e.value)
    else if s.state != BAN_PHASE then Fail(GuardError("Not in ban phase"))
    else if p !in c.maps then Fail(NotFound("Map"))
    else if !HasModeNamed(c, p, "Slayer") then Fail(GuardError("Map is not valid for Slayer"))
    else if SlayerBanned(s.bans, p) then Fail(GuardError("That Slayer map is already banned"))
    else Ok(AdvanceBanTurn(s.(bans := s.bans + [Ban(s.banIndex, team, SLAYER_MAP, p, None)])))
  }

  /**
   * `pick_objective_combo`: the turn check first; then the phase, an
   * objective slot, an objective mode the map supports, a combo not banned,
   * and a map no round has picked yet. Fills the current round and advances.
   */
  function PickObjectiveCombo(s: SeriesRecord, c: Catalog, team: Team, k: ModeId, p: MapId): (r: Result<SeriesRecord, Error>)
    requires Valid(s)
    ensures s.turn != Turn(team, PICK, OBJECTIVE_COMBO) <==> (r.Fail? && r.error.TurnError?)
    ensures r.Ok? <==>
      && s.turn == Turn(team, PICK, OBJECTIVE_COMBO)
      && k in c.modes && p in c.maps && c.modes[k].isObjective && Supports(c, p, k)
      && !ComboBanned(s.bans, k, p)
      && !MapUsed(s.rounds, p)
    ensures s.turn == Turn(team, PICK, OBJECTIVE_COMBO) && k !in c.modes ==> r == Fail(NotFound("GameMode"))
    ensures s.turn == Turn(team, PICK, OBJECTIVE_COMBO) && k in c.modes && p !in c.maps ==> r == Fail(NotFound("Map"))
    ensures r.Fail? && !r.error.TurnError? ==> (r.error.NotFound? <==> k !in c.modes || p !in c.maps)
    ensures r.Ok? ==>
      && s.state == PICK_WINDOW && s.rounds[s.roundIndex].slotType == OBJECTIVE
      && r.value == AdvanceRound(s.(rounds := s.rounds[s.roundIndex := FilledRound(s.rounds[s.roundIndex], k, team, p)]))
  {
    var e := ExpectTurn(s.turn, team, PICK, OBJECTIVE_COMBO);
    if e.Some? then Fail(e.value)
    else if s.state != PICK_WINDOW then Fail(GuardError("Not in pick window"))
    else
      var rd := s.rounds[s.roundIndex];
      if rd.slotType != OBJECTIVE then Fail(GuardError("This round is not Objective"))
      else if k !in c.modes then Fail(NotFound("GameMode"))
      else if p !in c.maps then Fail(NotFound("Map"))
      else if !c.modes[k].isObjective || k !in c.maps[p].modes then Fail(GuardError("Invalid objective combo"))
      else if ComboBanned(s.bans, k, p) then Fail(GuardError("Combo is banned"))
      else if MapUsed(s.rounds, p) then Fail(GuardError("Map already used in this series"))
      else Ok(AdvanceRound(s.(rounds := s.rounds[s.roundIndex := FilledRound(rd, k, team, p)])))
  }

  /**
   * `pick_slayer_map`: the turn check first; then the phase, a Slayer slot, a
   * map with a mode named "Slayer", not Slayer-banned, not picked yet. Fills
   * the current round with the Slayer mode and advances.
   */
  function PickSlayerMap(s: SeriesRecord, c: Catalog, team: Team, p: MapId): (r: Result<SeriesRecord, Error>)
    requires Valid(s) && WellFormed(c)
    ensures s.turn != Turn(team, PICK, SLAYER_MAP) <==> (r.Fail? && r.error.TurnError?)
    ensures r.Ok? <==>
      && s.turn == Turn(team, PICK, SLAYER_MAP)
      && p in c.maps && HasModeNamed(c, p, "Slayer")
      && !SlayerBanned(s.bans, p)
      && !MapUsed(s.rounds, p)
    ensures s.turn == Turn(team, PICK, SLAYER_MAP) && p !in c.maps ==> r == Fail(NotFound("Map"))
    ensures r.Fail? && !r.error.TurnError? ==> (r.error.NotFound? <==> p !in c.maps)
    ensures r.Ok? ==>
      && s.state == PICK_WINDOW && s.rounds[s.roundIndex].slotType == SLAYER
      && r.value == AdvanceRound(s.(rounds := s.rounds[s.roundIndex := FilledRound(s.rounds[s.roundIndex], SlayerMode(c), team, p)]))
  {
    var e := ExpectTurn(s.turn, team, PICK, SLAYER_MAP);
    if e.Some? then Fail(e.value)
    else if s.state != PICK_WINDOW then Fail(GuardError("Not in pick window"))
    else
      var rd := s.rounds[s.roundIndex];
      if rd.slotType != SLAYER then Fail(GuardError("This round is not Slayer"))
      else if p !in c.maps then Fail(NotFound("Map"))
      else if !HasModeNamed(c, p, "Slayer") then Fail(GuardError("Map is not valid for Slayer"))
      else if SlayerBanned(s.bans, p) then Fail(GuardError("This Slayer map is banned"))
      else if MapUsed(s.rounds, p) then Fail(GuardError("Map already used in this series"))
      else Ok(AdvanceRound(s.(rounds := s.rounds[s.roundIndex := FilledRound(rd, SlayerMode(c), team, p)])))
  }

  /** The round with its pick taken back: every pick field at its default. */
  function ClearedRound(r: Round): Round {
    r.(mode := None, pickBy := None, pickMap := None, locked := false)
  }

  /**
   * `undo_last`. In BAN_PHASE: drop the ban with the highest step and make
   * that step's schedule entry the turn again. In PICK_WINDOW: clear the
   * current round's pick if it has one, else step back one round and clear
   * that one, and recompute the turn. Anything else is "nothing to undo".
   */
  function UndoLast(s: SeriesRecord): (r: Result<SeriesRecord, Error>)
    requires Valid(s)
    ensures r.Ok? <==>
      || (s.state == BAN_PHASE && s.bans != [])
      || (s.state == PICK_WINDOW && (s.rounds[s.roundIndex].pickMap.Some? || s.roundIndex > 0))
    ensures s.state !in {BAN_PHASE, PICK_WINDOW} ==> r == Fail(GuardError("Undo not available in current state"))
    ensures s.state == BAN_PHASE && s.bans == [] ==> r == Fail(GuardError("Nothing to undo"))
    ensures s.state == PICK_WINDOW && s.rounds[s.roundIndex].pickMap.None? && s.roundIndex == 0 ==>
      r == Fail(GuardError("Nothing to undo"))
    ensures r.Fail? ==> r.error.GuardError?
    ensures r.Ok? ==>
      && r.value.teamA == s.teamA && r.value.teamB == s.teamB
      && r.value.seriesType == s.seriesType && r.value.ruleset == s.ruleset
    ensures r.Ok? && s.state == BAN_PHASE ==>
      && r.value.bans == s.bans[..|s.bans| - 1]
      && r.value.banIndex == s.bans[|s.bans| - 1].stepIndex
      && r.value.turn == BanTurn(r.value.banIndex)
      && r.value.state == BAN_PHASE && r.value.rounds == s.rounds && r.value.roundIndex == s.roundIndex
    ensures r.Ok? && s.state == PICK_WINDOW ==>
      && r.value.state == PICK_WINDOW && r.value.bans == s.bans && r.value.banIndex == s.banIndex
      && r.value.roundIndex == (if s.rounds[s.roundIndex].pickMap.Some? then s.roundIndex else s.roundIndex - 1)
      && |r.value.rounds| == |s.rounds|
      && r.value.rounds[r.value.roundIndex] == ClearedRound(s.rounds[r.value.roundIndex])
      && (forall i :: 0 <= i < |s.rounds| && i != r.value.roundIndex ==> r.value.rounds[i] == s.rounds[i])
      && r.value.turn == PickTurn(r.value.roundIndex, s.rounds[r.value.roundIndex].slotType)
  {
    if s.state == BAN_PHASE then
      if s.bans == [] then Fail(GuardError("Nothing to undo"))
      else
        var last := s.bans[|s.bans| - 1];
        var k := last.stepIndex;
        Ok(s.(bans := s.bans[..|s.bans| - 1], banIndex := k, turn := BanTurn(k)))
    else if s.state == PICK_WINDOW then
      var ri := s.roundIndex;
      var rd := s.rounds[ri];
      if rd.pickMap.Some? then
        Ok(s.(rounds := s.rounds[ri := ClearedRound(rd)], turn := PickTurn(ri, rd.slotType)))
      else if ri == 0 then Fail(GuardError("Nothing to undo"))
      else
        var prev := s.rounds[ri - 1];
        Ok(s.(roundIndex := ri - 1, rounds := s.rounds[ri - 1 := ClearedRound(prev)], turn := PickTurn(ri - 1, prev.slotType)))
    else Fail(GuardError("Undo not available in current state"))
  }

  /**
   * `reset`, from any state: the series becomes exactly what a newly created
   * series with the same two teams is.
   */
  function Reset(s: SeriesRecord): (r: SeriesRecord)
    ensures r == NewSeries(s.teamA, s.teamB)
  {
    s.(bans := [], rounds := [], ruleset := "", seriesType := "", roundIndex := 0, banIndex := 0,
       turn := NoTurn, state := IDLE)
  }

  // ---- The invariant is kept by every entry point ----

  /** Reset yields a valid series from any state, valid or not. */
  lemma ResetValid(s: SeriesRecord)
    ensures Valid(Reset(s))
  {
  }

  lemma AssignRolesKeepsValid(s: SeriesRecord, teamA: string, teamB: string)
    requires Valid(s) && AssignRoles(s, teamA, teamB).Ok?
    ensures Valid(AssignRoles(s, teamA, teamB).value)
  {
  }

  lemma ConfirmTsdKeepsValid(s: SeriesRecord, seriesType: string, ruleset: string)
    requires Valid(s) && ConfirmTsd(s, seriesType, ruleset).Ok?
    ensures Valid(ConfirmTsd(s, seriesType, ruleset).value)
  {
    var r := ConfirmTsd(s, seriesType, ruleset).value;
    assert SlotsOf(r.rounds) == RoundSlots[seriesType];
    assert forall i :: 0 <= i < |r.rounds| ==> Unpicked(r.rounds[i]);
  }

  /**
   * After a successful `confirm_tsd` the stored series type is still empty,
   * and so names no template, although the rounds follow the one asked for.
   */
  lemma ConfirmTsdLeavesTypeUnset(s: SeriesRecord, seriesType: string, ruleset: string)
    requires Valid(s) && ConfirmTsd(s, seriesType, ruleset).Ok?
    ensures var r := ConfirmTsd(s, seriesType, ruleset).value;
      && r.seriesType == "" && r.ruleset == "" && r.seriesType !in RoundSlots
      && SlotsOf(r.rounds) == RoundSlots[seriesType]
  {
    var r := ConfirmTsd(s, seriesType, ruleset).value;
    assert SlotsOf(r.rounds) == RoundSlots[seriesType];
  }

  /**
   * The corrected `confirm_tsd` keeps the invariant, and its stored series
   * type names exactly the template its rounds follow.
   */
  lemma ConfirmTsdSavedNamesTemplate(s: SeriesRecord, seriesType: string, ruleset: string)
    requires Valid(s) && ConfirmTsdSaved(s, seriesType, ruleset).Ok?
    ensures var r := ConfirmTsdSaved(s, seriesType, ruleset).value;
      Valid(r) && r.seriesType in RoundSlots && SlotsOf(r.rounds) == RoundSlots[r.seriesType]
  {
    ConfirmTsdKeepsValid(s, seriesType, ruleset);
    var r := ConfirmTsdSaved(s, seriesType, ruleset).value;
    assert SlotsOf(r.rounds) == RoundSlots[seriesType];
  }

  /**
   * Appending the ban the schedule calls for at the current step, when it
   * repeats no earlier ban, and advancing the turn keeps the invariant.
   */
  lemma {:induction false} AppendBanKeepsValid(s: SeriesRecord, b: Ban)
    requires Valid(s) && s.state == BAN_PHASE
    requires b.stepIndex == s.banIndex
    requires (b.byTeam, b.kind) == BanSchedule[s.banIndex]
    requires b.objectiveMode.Some? <==> b.kind == OBJECTIVE_COMBO
    requires forall i :: 0 <= i < |s.bans| ==>
      !(s.bans[i].kind == b.kind && s.bans[i].banMap == b.banMap && s.bans[i].objectiveMode == b.objectiveMode)
    ensures |s.rounds| > 0
    ensures Valid(AdvanceBanTurn(s.(bans := s.bans + [b])))
  {
    ConfiguredRounds(s);
    var t := s.(bans := s.bans + [b]);
    var r := AdvanceBanTurn(t);
    assert BansFollowSchedule(r.bans);
    assert BansDistinct(r.bans) by {
      forall i, j | 0 <= i < j < |r.bans|
        ensures !(r.bans[i].kind == r.bans[j].kind && r.bans[i].banMap == r.bans[j].banMap
                  && r.bans[i].objectiveMode == r.bans[j].objectiveMode)
      {
        if j == |s.bans| {
          assert r.bans[i] == s.bans[i] && r.bans[j] == b;
        } else {
          assert r.bans[i] == s.bans[i] && r.bans[j] == s.bans[j];
        }
      }
    }
  }

  lemma BanObjectiveComboKeepsValid(s: SeriesRecord, c: Catalog, team: Team, k: ModeId, p: MapId)
    requires Valid(s) && BanObjectiveCombo(s, c, team, k, p).Ok?
    ensures Valid(BanObjectiveCombo(s, c, team, k, p).value)
  {
    var b := Ban(s.banIndex, team, OBJECTIVE_COMBO, p, Some(k));
    AppendBanKeepsValid(s, b);
  }

  lemma BanSlayerMapKeepsValid(s: SeriesRecord, c: Catalog, team: Team, p: MapId)
    requires Valid(s) && BanSlayerMap(s, c, team, p).Ok?
    ensures Valid(BanSlayerMap(s, c, team, p).value)
  {
    var b := Ban(s.banIndex, team, SLAYER_MAP, p, None);
    AppendBanKeepsValid(s, b);
  }

  /**
   * Filling the current round with a map no round has picked, by the team
   * whose turn it is, and advancing keeps the invariant.
   */
  lemma {:induction false} FillRoundKeepsValid(s: SeriesRecord, k: ModeId, team: Team, p: MapId)
    requires Valid(s) && s.state == PICK_WINDOW
    requires s.turn.Turn? && team == s.turn.team
    requires !MapUsed(s.rounds, p)
    ensures Valid(AdvanceRound(s.(rounds := s.rounds[s.roundIndex := FilledRound(s.rounds[s.roundIndex], k, team, p)])))
  {
    var ri := s.roundIndex;
    var t := s.(rounds := s.rounds[ri := FilledRound(s.rounds[ri], k, team, p)]);
    var r := AdvanceRound(t);
    SlotsOfUpdate(s.rounds, ri, t.rounds[ri]);
    assert PickedRound(t.rounds[ri], ri);
    assert PicksDistinct(t.rounds) by {
      forall i, j | 0 <= i < j < |t.rounds| && t.rounds[i].pickMap.Some?
        ensures t.rounds[i].pickMap != t.rounds[j].pickMap
      {
        if i == ri {
          assert s.rounds[j].pickMap != Some(p);
        } else if j == ri {
          assert s.rounds[i].pickMap != Some(p);
        }
      }
    }
    assert forall i :: 0 <= i < |t.rounds| ==> PickedRound(t.rounds[i], i) || Unpicked(t.rounds[i]);
  }

  lemma PickObjectiveComboKeepsValid(s: SeriesRecord, c: Catalog, team: Team, k: ModeId, p: MapId)
    requires Valid(s) && PickObjectiveCombo(s, c, team, k, p).Ok?
    ensures Valid(PickObjectiveCombo(s, c, team, k, p).value)
  {
    FillRoundKeepsValid(s, k, team, p);
  }

  lemma PickSlayerMapKeepsValid(s: SeriesRecord, c: Catalog, team: Team, p: MapId)
    requires Valid(s) && WellFormed(c) && PickSlayerMap(s, c, team, p).Ok?
    ensures Valid(PickSlayerMap(s, c, team, p).value)
  {
    FillRoundKeepsValid(s, SlayerMode(c), team, p);
  }

  lemma {:induction false} UndoLastKeepsValid(s: SeriesRecord)
    requires Valid(s) && UndoLast(s).Ok?
    ensures Valid(UndoLast(s).value)
  {
    var r := UndoLast(s).value;
    if s.state == BAN_PHASE {
      assert r.bans == s.bans[..|s.bans| - 1];
      assert BansDistinct(r.bans);
    } else {
      SlotsOfUpdate(s.rounds, r.roundIndex, r.rounds[r.roundIndex]);
      assert r.rounds == s.rounds[r.roundIndex := r.rounds[r.roundIndex]];
      assert PicksDistinct(r.rounds) by {
        forall i, j | 0 <= i < j < |r.rounds| && r.rounds[i].pickMap.Some?
          ensures r.rounds[i].pickMap != r.rounds[j].pickMap
        {
          assert r.rounds[i] == s.rounds[i];
        }
      }
      assert forall i :: 0 <= i < |r.rounds| ==> PickedRound(r.rounds[i], i) || Unpicked(r.rounds[i]);
    }
  }

  // ---- Undo against the step it takes back ----

  /**
   * A ban that leaves the series in the ban phase is taken back by
   * `undo_last`: the series is exactly as before the ban.
   */
  lemma {:induction false} UndoRevertsBan(s: SeriesRecord, c: Catalog, team: Team, k: ModeId, p: MapId, slayer: bool)
    requires Valid(s)
    requires slayer ==> BanSlayerMap(s, c, team, p).Ok?
    requires !slayer ==> BanObjectiveCombo(s, c, team, k, p).Ok?
    requires s.banIndex + 1 < |BanSchedule|
    ensures var after := if slayer then BanSlayerMap(s, c, team, p).value else BanObjectiveCombo(s, c, team, k, p).value;
      Valid(after) && UndoLast(after) == Ok(s)
  {
    var after := if slayer then BanSlayerMap(s, c, team, p).value else BanObjectiveCombo(s, c, team, k, p).value;
    if slayer { BanSlayerMapKeepsValid(s, c, team, p); } else { BanObjectiveComboKeepsValid(s, c, team, k, p); }
    var u := UndoLast(after).value;
    assert after.bans[..|after.bans| - 1] == s.bans;
    assert u.turn == s.turn;
    assert u == s;
  }

  /**
   * The seventh ban cannot be taken back: it opens the pick window at round
   * 0, where `undo_last` finds nothing to undo.
   */
  lemma UndoCannotRevertLastBan(s: SeriesRecord, c: Catalog, team: Team, p: MapId)
    requires Valid(s) && BanSlayerMap(s, c, team, p).Ok?
    requires s.banIndex + 1 == |BanSchedule|
    ensures Valid(BanSlayerMap(s, c, team, p).value)
    ensures BanSlayerMap(s, c, team, p).value.state == PICK_WINDOW
    ensures UndoLast(BanSlayerMap(s, c, team, p).value) == Fail(GuardError("Nothing to undo"))
  {
    BanSlayerMapKeepsValid(s, c, team, p);
    AppendBanKeepsValid(s, Ban(s.banIndex, team, SLAYER_MAP, p, None));
  }

  /**
   * A pick into an empty round that leaves the pick window open is taken
   * back by `undo_last`: the series is exactly as before the pick.
   */
  lemma {:induction false} UndoRevertsPick(s: SeriesRecord, c: Catalog, team: Team, k: ModeId, p: MapId, slayer: bool)
    requires Valid(s) && WellFormed(c)
    requires slayer ==> PickSlayerMap(s, c, team, p).Ok?
    requires !slayer ==> PickObjectiveCombo(s, c, team, k, p).Ok?
    requires s.rounds[s.roundIndex].pickMap.None?
    requires s.roundIndex + 1 < |s.rounds|
    ensures var after := if slayer then PickSlayerMap(s, c, team, p).value else PickObjectiveCombo(s, c, team, k, p).value;
      Valid(after) && UndoLast(after) == Ok(s)
  {
    var after := if slayer then PickSlayerMap(s, c, team, p).value else PickObjectiveCombo(s, c, team, k, p).value;
    if slayer { PickSlayerMapKeepsValid(s, c, team, p); } else { PickObjectiveComboKeepsValid(s, c, team, k, p); }
    var ri := s.roundIndex;
    assert Unpicked(s.rounds[ri]);
    assert Unpicked(after.rounds[ri + 1]);
    var u := UndoLast(after).value;
    assert u.roundIndex == ri;
    assert u.rounds == s.rounds;
    assert u == s;
  }

  /**
   * The final pick, objective or Slayer, cannot be taken back: the series is
   * complete and undo is refused.
   */
  lemma UndoCannotRevertFinalPick(s: SeriesRecord, c: Catalog, team: Team, k: ModeId, p: MapId, slayer: bool)
    requires Valid(s) && WellFormed(c)
    requires slayer ==> PickSlayerMap(s, c, team, p).Ok?
    requires !slayer ==> PickObjectiveCombo(s, c, team, k, p).Ok?
    requires s.roundIndex + 1 == |s.rounds|
    ensures var after := if slayer then PickSlayerMap(s, c, team, p).value else PickObjectiveCombo(s, c, team, k, p).value;
      && Valid(after) && after.state == SERIES_COMPLETE
      && UndoLast(after) == Fail(GuardError("Undo not available in current state"))
  {
    if slayer { PickSlayerMapKeepsValid(s, c, team, p); } else { PickObjectiveComboKeepsValid(s, c, team, k, p); }
  }

  // ---- Guard order ----

  /**
   * A Slayer pick asked for while the current round is an objective slot is
   * refused by the turn check, before the slot check is reached: the turn
   * of such a round asks for an objective combo.
   */
  lemma SlayerPickOnObjectiveSlot(s: SeriesRecord, c: Catalog, team: Team, p: MapId)
    requires Valid(s) && WellFormed(c)
    requires s.state == PICK_WINDOW && s.rounds[s.roundIndex].slotType == OBJECTIVE
    ensures PickSlayerMap(s, c, team, p).Fail?
    ensures PickSlayerMap(s, c, team, p).error ==
      if team == s.turn.team then TurnError("Wrong action kind (expected SLAYER_MAP)") else TurnError("Not your turn")
  {
  }

  // ---- A worked ceremony ----

  /** A small catalog: Slayer plus two objective modes over five maps. */
  const DemoCatalog: Catalog := Catalog(
    map[1 := GameMode("Slayer", false), 2 := GameMode("Capture the Flag", true), 3 := GameMode("King of the Hill", true)],
    map[10 := MapEntry("Aquarius", {1, 2}), 11 := MapEntry("Live Fire", {1, 3}), 12 := MapEntry("Recharge", {1, 3}),
        13 := MapEntry("Origin", {1, 2}), 14 := MapEntry("Lattice", {3})])

  /**
   * "Alpha" against "Bravo" in a Bo3: three rounds Objective, Slayer,
   * Objective and team A to ban first, with the stored series type still
   * empty; team A's first combo ban is accepted, and team B banning the same
   * combo again is refused.
   */
  lemma Bo3Ceremony()
    ensures var s := ConfirmTsd(AssignRoles(NewSeries("Alpha", "Bravo"), "Alpha", "Bravo").value, "Bo3", "TSD_8s_v2");
      && s.Ok?
      && [s.value.rounds[0].slotType, s.value.rounds[1].slotType, s.value.rounds[2].slotType] == [OBJECTIVE, SLAYER, OBJECTIVE]
      && |s.value.rounds| == 3
      && s.value.seriesType == ""
      && s.value.turn == Turn(A, BAN, OBJECTIVE_COMBO)
      && Valid(s.value)
      && var b1 := BanObjectiveCombo(s.value, DemoCatalog, A, 2, 10);
         && b1.Ok?
         && BanObjectiveCombo(b1.value, DemoCatalog, B, 2, 10) == Fail(GuardError("That combo is already banned"))
  {
    var s0 := NewSeries("Alpha", "Bravo");
    var s1 := AssignRoles(s0, "Alpha", "Bravo").value;
    AssignRolesKeepsValid(s0, "Alpha", "Bravo");
    var s2 := ConfirmTsd(s1, "Bo3", "TSD_8s_v2").value;
    ConfirmTsdKeepsValid(s1, "Bo3", "TSD_8s_v2");
    var b1 := BanObjectiveCombo(s2, DemoCatalog, A, 2, 10).value;
    RepeatedComboBanRefused(s2, DemoCatalog, A, B, 2, 10);
  }

  /**
   * A combo cannot be banned twice: once banned, the next team's attempt at
   * the same combo is refused as already banned, whoever asks.
   */
  lemma RepeatedComboBanRefused(s: SeriesRecord, c: Catalog, team: Team, other: Team, k: ModeId, p: MapId)
    requires Valid(s) && BanObjectiveCombo(s, c, team, k, p).Ok?
    requires BanObjectiveCombo(s, c, team, k, p).value.turn == Turn(other, BAN, OBJECTIVE_COMBO)
    ensures BanObjectiveCombo(BanObjectiveCombo(s, c, team, k, p).value, c, other, k, p)
      == Fail(GuardError("That combo is already banned"))
  {
    var t := BanObjectiveCombo(s, c, team, k, p).value;
    BanObjectiveComboKeepsValid(s, c, team, k, p);
    assert t.bans[|s.bans|] == Ban(s.banIndex, team, OBJECTIVE_COMBO, p, Some(k));
    assert ComboBanned(t.bans, k, p);
  }

  /**
   * The ban phase ends exactly with its seventh ban, and then the pick
   * window opens at round 0 with team B to pick the kind the first slot
   * calls for: an objective combo in every series type.
   */
  lemma BanPhaseEndsAfterSevenBans(s: SeriesRecord, c: Catalog, team: Team, k: ModeId, p: MapId, slayer: bool)
    requires Valid(s)
    requires slayer ==> BanSlayerMap(s, c, team, p).Ok?
    requires !slayer ==> BanObjectiveCombo(s, c, team, k, p).Ok?
    ensures var t := if slayer then BanSlayerMap(s, c, team, p).value else BanObjectiveCombo(s, c, team, k, p).value;
      && (t.state == PICK_WINDOW <==> |t.bans| == |BanSchedule|)
      && (t.state == PICK_WINDOW ==> t.roundIndex == 0 && t.turn == Turn(B, PICK, OBJECTIVE_COMBO))
      && (t.state != PICK_WINDOW ==> t.state == BAN_PHASE)
  {
    if slayer { BanSlayerMapKeepsValid(s, c, team, p); } else { BanObjectiveComboKeepsValid(s, c, team, k, p); }
    ConfiguredRounds(s);
  }
}
