/**
 * The veto engine acting on one series in place. A `Series` object holds the
 * series row's fields together with its rounds and bans; each entry point
 * checks its guards before changing anything, so a call either raises with
 * the series untouched or performs the whole step. Every method is proved to
 * do exactly what the matching function of TsdSpec describes, and to keep
 * the series invariant.
 */
module TsdMachine {
  import opened Wrappers
  import opened Models
  import Spec = TsdSpec

  class Series {
    var teamA: string
    var teamB: string
    var state: SeriesState
    var ruleset: string
    var seriesType: string
    var roundIndex: nat
    var banIndex: nat
    var turn: Turn
    var rounds: seq<Round>
    var bans: seq<Ban>

    /** The series as a value. */
    function Record(): SeriesRecord
      reads this
    {
      SeriesRecord(teamA, teamB, state, ruleset, seriesType, roundIndex, banIndex, turn, rounds, bans)
    }

    ghost predicate Valid()
      reads this
    {
      Spec.Valid(Record())
    }

    /** A new series between two teams, every other field at its default. */
    constructor (teamA: string, teamB: string)
      ensures Record() == NewSeries(teamA, teamB)
      ensures Valid()
    {
      this.teamA, this.teamB := teamA, teamB;
      state := IDLE;
      ruleset, seriesType := "", "";
      roundIndex, banIndex := 0, 0;
      turn := NoTurn;
      rounds, bans := [], [];
    }

    // ---- helpers ----

    /** `_expect_turn`: the error the stored turn gives the caller, if any. */
    method ExpectTurn(team: Team, action: TurnAction, kind: BanKind) returns (err: Option<Spec.Error>)
      ensures err.None? <==> turn == Turn(team, action, kind)
      ensures err == Spec.ExpectTurn(turn, team, action, kind)
    {
      if turn.NoTurn? || turn.team != team || turn.action != action {
        return Some(Spec.TurnError("Not your turn"));
      }
      if turn.kind != kind {
        return Some(Spec.TurnError("Wrong action kind (expected " + KindValue(kind) + ")"));
      }
      return None;
    }

    /** `_start_ban_phase`: the ban phase at step 0, team A to ban an objective combo. */
    method StartBanPhase()
      modifies this
      ensures state == BAN_PHASE && banIndex == 0 && turn == Turn(A, BAN, OBJECTIVE_COMBO)
      ensures teamA == old(teamA) && teamB == old(teamB) && ruleset == old(ruleset)
      ensures seriesType == old(seriesType) && roundIndex == old(roundIndex)
      ensures rounds == old(rounds) && bans == old(bans)
    {
      state := BAN_PHASE;
      banIndex := 0;
      var (team, kind) := Spec.BanSchedule[0];
      turn := Turn(team, BAN, kind);
    }

    /** `_advance_ban_turn`. */
    method AdvanceBanTurn()
      requires banIndex < |Spec.BanSchedule|
      requires banIndex + 1 == |Spec.BanSchedule| ==> |rounds| > 0
      modifies this
      ensures Record() == Spec.AdvanceBanTurn(old(Record()))
    {
      var idx := banIndex + 1;
      if idx < |Spec.BanSchedule| {
        var (team, kind) := Spec.BanSchedule[idx];
        banIndex := idx;
        turn := Turn(team, BAN, kind);
      } else {
        banIndex := idx;
        state := PICK_WINDOW;
        roundIndex := 0;
        var gameNo := 1;
        var slot := rounds[0].slotType;
        var kind := if slot == OBJECTIVE then OBJECTIVE_COMBO else SLAYER_MAP;
        turn := Turn(Spec.PickingTeamForGame(gameNo), PICK, kind);
      }
    }

    /** `_map_unused`: no round of this series has picked map `p`. */
    method MapUnused(p: MapId) returns (unused: bool)
      ensures unused <==> forall i :: 0 <= i < |rounds| ==> rounds[i].pickMap != Some(p)
    {
      unused := !Spec.MapUsed(rounds, p);
    }

    /** `_advance_round_after_pick`. */
    method AdvanceRoundAfterPick()
      requires roundIndex < |rounds|
      modifies this
      ensures Record() == Spec.AdvanceRound(old(Record()))
    {
      var last := |rounds| - 1;
      if roundIndex < last {
        roundIndex := roundIndex + 1;
        var nextGame := roundIndex + 1;
        var slot := rounds[roundIndex].slotType;
        var kind := if slot == OBJECTIVE then OBJECTIVE_COMBO else SLAYER_MAP;
        state := PICK_WINDOW;
        turn := Turn(Spec.PickingTeamForGame(nextGame), PICK, kind);
      } else {
        state := SERIES_COMPLETE;
        turn := NoTurn;
      }
    }

    // ---- entry points ----

    /**
     * `confirm_tsd`. The series type and ruleset it is given are not saved
     * with the row, so the fields keep their values.
     */
    method ConfirmTsd(seriesType: string, ruleset: string) returns (err: Option<Spec.Error>)
      requires Valid()
      modifies this
      ensures Valid()
      ensures var r := Spec.ConfirmTsd(old(Record()), seriesType, ruleset);
        && (r.Fail? ==> err == Some(r.error) && Record() == old(Record()))
        && (r.Ok? ==> err == None && Record() == r.value)
    {
      if state !in {IDLE, SERIES_SETUP} {
        return Some(Spec.GuardError("Series already configured"));
      }
      if seriesType !in Spec.RoundSlots {
        return Some(Spec.GuardError("Invalid series_type"));
      }
      ghost var before := Record();
      rounds := [];
      var slots := Spec.RoundSlots[seriesType];
      for i := 0 to |slots|
        invariant |rounds| == i
        invariant forall j :: 0 <= j < i ==> rounds[j] == EmptyRound(slots[j])
        invariant Record() == before.(rounds := rounds)
      {
        rounds := rounds + [EmptyRound(slots[i])];
      }
      StartBanPhase();
      assert rounds == Spec.SlotRounds(slots);
      Spec.ConfirmTsdKeepsValid(before, seriesType, ruleset);
      return None;
    }

    /** `assign_roles`. */
    method AssignRoles(teamA: string, teamB: string) returns (err: Option<Spec.Error>)
      requires Valid()
      modifies this
      ensures Valid()
      ensures var r := Spec.AssignRoles(old(Record()), teamA, teamB);
        && (r.Fail? ==> err == Some(r.error) && Record() == old(Record()))
        && (r.Ok? ==> err == None && Record() == r.value)
    {
      if state != IDLE {
        return Some(Spec.GuardError("Roles can only be assigned in IDLE"));
      }
      ghost var before := Record();
      this.teamA := teamA;
      this.teamB := teamB;
      state := SERIES_SETUP;
      Spec.AssignRolesKeepsValid(before, teamA, teamB);
      return None;
    }

    /** `ban_objective_combo`. */
    method BanObjectiveCombo(c: Catalog, team: Team, k: ModeId, p: MapId) returns (err: Option<Spec.Error>)
      requires Valid()
      modifies this
      ensures Valid()
      ensures var r := Spec.BanObjectiveCombo(old(Record()), c, team, k, p);
        && (r.Fail? ==> err == Some(r.error) && Record() == old(Record()))
        && (r.Ok? ==> err == None && Record() == r.value)
    {
      err := ExpectTurn(team, BAN, OBJECTIVE_COMBO);
      if err.Some? {
        return;
      }
      if state != BAN_PHASE {
        return Some(Spec.GuardError("Not in ban phase"));
      }
      if k !in c.modes {
        return Some(Spec.NotFound("GameMode"));
      }
      var mode := c.modes[k];
      if !mode.isObjective {
        return Some(Spec.GuardError("Mode must be objective"));
      }
      if p !in c.maps {
        return Some(Spec.NotFound("Map"));
      }
      var m := c.maps[p];
      if k !in m.modes {
        return Some(Spec.GuardError("Map does not support this objective"));
      }
      if Spec.ComboBanned(bans, k, p) {
        return Some(Spec.GuardError("That combo is already banned"));
      }
      ghost var before := Record();
      Spec.AppendBanKeepsValid(before, Ban(banIndex, team, OBJECTIVE_COMBO, p, Some(k)));
      bans := bans + [Ban(banIndex, team, OBJECTIVE_COMBO, p, Some(k))];
      AdvanceBanTurn();
      Spec.BanObjectiveComboKeepsValid(before, c, team, k, p);
    }

    /** `ban_slayer_map`. */
    method BanSlayerMap(c: Catalog, team: Team, p: MapId) returns (err: Option<Spec.Error>)
      requires Valid()
      modifies this
      ensures Valid()
      ensures var r := Spec.BanSlayerMap(old(Record()), c, team, p);
        && (r.Fail? ==> err == Some(r.error) && Record() == old(Record()))
        && (r.Ok? ==> err == None && Record() == r.value)
    {
      err := ExpectTurn(team, BAN, SLAYER_MAP);
      if err.Some? {
        return;
      }
      if state != BAN_PHASE {
        return Some(Spec.GuardError("Not in ban phase"));
      }
      if p !in c.maps {
        return Some(Spec.NotFound("Map"));
      }
      if !HasModeNamed(c, p, "Slayer") {
        return Some(Spec.GuardError("Map is not valid for Slayer"));
      }
      if Spec.SlayerBanned(bans, p) {
        return Some(Spec.GuardError("That Slayer map is already banned"));
      }
      ghost var before := Record();
      Spec.AppendBanKeepsValid(before, Ban(banIndex, team, SLAYER_MAP, p, None));
      bans := bans + [Ban(banIndex, team, SLAYER_MAP, p, None)];
      AdvanceBanTurn();
      Spec.BanSlayerMapKeepsValid(before, c, team, p);
    }

    /** `pick_objective_combo`. */
    method PickObjectiveCombo(c: Catalog, team: Team, k: ModeId, p: MapId) returns (err: Option<Spec.Error>)
      requires Valid()
      modifies this
      ensures Valid()
      ensures var r := Spec.PickObjectiveCombo(old(Record()), c, team, k, p);
        && (r.Fail? ==> err == Some(r.error) && Record() == old(Record()))
        && (r.Ok? ==> err == None && Record() == r.value)
    {
      err := ExpectTurn(team, PICK, OBJECTIVE_COMBO);
      if err.Some? {
        return;
      }
      if state != PICK_WINDOW {
        return Some(Spec.GuardError("Not in pick window"));
      }
      var r := rounds[roundIndex];
      if r.slotType != OBJECTIVE {
        return Some(Spec.GuardError("This round is not Objective"));
      }
      if k !in c.modes {
        return Some(Spec.NotFound("GameMode"));
      }
      if p !in c.maps {
        return Some(Spec.NotFound("Map"));
      }
      var mode := c.modes[k];
      var m := c.maps[p];
      if !mode.isObjective || k !in m.modes {
        return Some(Spec.GuardError("Invalid objective combo"));
      }
      if Spec.ComboBanned(bans, k, p) {
        return Some(Spec.GuardError("Combo is banned"));
      }
      var unused := MapUnused(p);
      if !unused {
        return Some(Spec.GuardError("Map already used in this series"));
      }
      ghost var before := Record();
      r := r.(mode := Some(k), pickBy := Some(team), pickMap := Some(p), locked := true);
      rounds := rounds[roundIndex := r];
      AdvanceRoundAfterPick();
      Spec.PickObjectiveComboKeepsValid(before, c, team, k, p);
    }

    /** `pick_slayer_map`. */
    method PickSlayerMap(c: Catalog, team: Team, p: MapId) returns (err: Option<Spec.Error>)
      requires Valid() && WellFormed(c)
      modifies this
      ensures Valid()
      ensures var r := Spec.PickSlayerMap(old(Record()), c, team, p);
        && (r.Fail? ==> err == Some(r.error) && Record() == old(Record()))
        && (r.Ok? ==> err == None && Record() == r.value)
    {
      err := ExpectTurn(team, PICK, SLAYER_MAP);
      if err.Some? {
        return;
      }
      if state != PICK_WINDOW {
        return Some(Spec.GuardError("Not in pick window"));
      }
      var r := rounds[roundIndex];
      if r.slotType != SLAYER {
        return Some(Spec.GuardError("This round is not Slayer"));
      }
      if p !in c.maps {
        return Some(Spec.NotFound("Map"));
      }
      if !HasModeNamed(c, p, "Slayer") {
        return Some(Spec.GuardError("Map is not valid for Slayer"));
      }
      if Spec.SlayerBanned(bans, p) {
        return Some(Spec.GuardError("This Slayer map is banned"));
      }
      var unused := MapUnused(p);
      if !unused {
        return Some(Spec.GuardError("Map already used in this series"));
      }
      var slayer :| slayer in c.modes && c.modes[slayer].name == "Slayer";
      assert slayer == Spec.SlayerMode(c);
      ghost var before := Record();
      r := r.(mode := Some(slayer), pickBy := Some(team), pickMap := Some(p), locked := true);
      rounds := rounds[roundIndex := r];
      AdvanceRoundAfterPick();
      Spec.PickSlayerMapKeepsValid(before, c, team, p);
    }

    /** `undo_last`. */
    method UndoLast() returns (err: Option<Spec.Error>)
      requires Valid()
      modifies this
      ensures Valid()
      ensures var r := Spec.UndoLast(old(Record()));
        && (r.Fail? ==> err == Some(r.error) && Record() == old(Record()))
        && (r.Ok? ==> err == None && Record() == r.value)
    {
      if state == BAN_PHASE {
        err := UndoBan();
        return;
      }
      if state == PICK_WINDOW {
        err := UndoPick();
        return;
      }
      return Some(Spec.GuardError("Undo not available in current state"));
    }

    /** `undo_last` in the ban phase: delete the last ban and make its step the turn again. */
    method UndoBan() returns (err: Option<Spec.Error>)
      requires Valid() && state == BAN_PHASE
      modifies this
      ensures Valid()
      ensures var r := Spec.UndoLast(old(Record()));
        && (r.Fail? ==> err == Some(r.error) && Record() == old(Record()))
        && (r.Ok? ==> err == None && Record() == r.value)
    {
      ghost var before := Record();
      if bans == [] {
        return Some(Spec.GuardError("Nothing to undo"));
      }
      var lastBan := bans[|bans| - 1];
      bans := bans[..|bans| - 1];
      banIndex := lastBan.stepIndex;
      var (team, kind) := Spec.BanSchedule[banIndex];
      turn := Turn(team, BAN, kind);
      assert Record() == Spec.UndoLast(before).value;
      Spec.UndoLastKeepsValid(before);
      return None;
    }

    /**
     * `undo_last` in the pick window: clear the current round's pick if it
     * has one, else step back one round and clear that one.
     */
    method UndoPick() returns (err: Option<Spec.Error>)
      requires Valid() && state == PICK_WINDOW
      modifies this
      ensures Valid()
      ensures var r := Spec.UndoLast(old(Record()));
        && (r.Fail? ==> err == Some(r.error) && Record() == old(Record()))
        && (r.Ok? ==> err == None && Record() == r.value)
    {
      ghost var before := Record();
      var r := rounds[roundIndex];
      if r.pickMap.Some? {
        r := r.(mode := None, pickBy := None, pickMap := None, locked := false);
        rounds := rounds[roundIndex := r];
        var gameNo := roundIndex + 1;
        var kind := if r.slotType == OBJECTIVE then OBJECTIVE_COMBO else SLAYER_MAP;
        turn := Turn(Spec.PickingTeamForGame(gameNo), PICK, kind);
        assert Record() == Spec.UndoLast(before).value;
        Spec.UndoLastKeepsValid(before);
        return None;
      }
      if roundIndex == 0 {
        return Some(Spec.GuardError("Nothing to undo"));
      }
      roundIndex := roundIndex - 1;
      r := rounds[roundIndex];
      r := r.(mode := None, pickBy := None, pickMap := None, locked := false);
      rounds := rounds[roundIndex := r];
      var gameNo := roundIndex + 1;
      var kind := if r.slotType == OBJECTIVE then OBJECTIVE_COMBO else SLAYER_MAP;
      turn := Turn(Spec.PickingTeamForGame(gameNo), PICK, kind);
      assert Record() == Spec.UndoLast(before).value;
      Spec.UndoLastKeepsValid(before);
      return None;
    }

    /** `reset`, from any state. */
    method Reset()
      modifies this
      ensures Record() == Spec.Reset(old(Record()))
      ensures Valid()
    {
      bans := [];
      rounds := [];
      ruleset := "";
      seriesType := "";
      roundIndex := 0;
      banIndex := 0;
      turn := NoTurn;
      state := IDLE;
      Spec.ResetValid(Record());
    }
  }
}
