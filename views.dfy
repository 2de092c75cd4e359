/**
 * The non-HTTP logic of the API views: turning a team label into a team
 * code, the team check and step numbering of the veto endpoint, the
 * map/mode legality check on actions, and the two combo listings (flat and
 * grouped by mode).
 *
 * The listings read `Map.objects.all().prefetch_related("modes")`; here that
 * query result is the `rows` parameter, one `MapRow` per map, each carrying
 * its modes in the order the query yields them. An absent query parameter is
 * the empty string (Python treats `None` and `""` alike in these conditions).
 */
module Views {
  import opened Wrappers
  import opened Text
  import opened Sorting
  import opened Models
  import Spec = TsdSpec

  // ---- team labels ----

  /**
   * `_as_team_code`: after stripping, a literal "A" or "B" is taken as the
   * code itself; otherwise the label must be one of the two team names.
   */
  function AsTeamCode(teamA: string, teamB: string, raw: string): (r: Result<Team, Spec.Error>)
    ensures Strip(raw) == "A" ==> r == Ok(A)
    ensures Strip(raw) == "B" ==> r == Ok(B)
    ensures r.Ok? <==> Strip(raw) in {"A", "B", teamA, teamB}
    ensures Strip(raw) !in {"A", "B"} && Strip(raw) == teamA ==> r == Ok(A)
    ensures Strip(raw) !in {"A", "B", teamA} && Strip(raw) == teamB ==> r == Ok(B)
    ensures r.Fail? ==> r.error == Spec.GuardError("Invalid or unknown team")
  {
    var v := Strip(raw);
    if v == "A" then Ok(A)
    else if v == "B" then Ok(B)
    else if v == teamA then Ok(A)
    else if v == teamB then Ok(B)
    else Fail(Spec.GuardError("Invalid or unknown team"))
  }

  /** The name a team goes by in a series. */
  function TeamName(teamA: string, teamB: string, t: Team): string {
    match t
    case A => teamA
    case B => teamB
  }

  /**
   * A team's own name, or its code, leads back to that team, provided the
   * names are distinct, carry no surrounding whitespace and are not
   * themselves "A" or "B" (a literal code wins over a name).
   */
  lemma AsTeamCodeRoundTrip(teamA: string, teamB: string, t: Team)
    requires teamA != teamB && teamA !in {"A", "B"} && teamB !in {"A", "B"}
    requires teamA == Strip(teamA) && teamB == Strip(teamB)
    ensures AsTeamCode(teamA, teamB, TeamName(teamA, teamB, t)) == Ok(t)
    ensures AsTeamCode(teamA, teamB, TeamValue(t)) == Ok(t)
  {
    CodeIsTrimmed(t);
    assert Strip(TeamName(teamA, teamB, t)) == TeamName(teamA, teamB, t);
  }

  lemma CodeIsTrimmed(t: Team)
    ensures Strip(TeamValue(t)) == TeamValue(t)
  {
    if t == A {
      assert !IsSpace('A');
      StripTrimmed("A");
    } else {
      assert !IsSpace('B');
      StripTrimmed("B");
    }
  }

  /** A team named "B" in the A slot is reached as B by its own name. */
  lemma LiteralCodeBeatsName()
    ensures AsTeamCode("B", "Bravo", "B") == Ok(B)
    ensures AsTeamCode("Alpha", "Bravo", " Alpha ") == Ok(A)
  {
    StripTrimmed("B");
    assert Strip(" Alpha ") == "Alpha" by {
      assert TrimLeft(" Alpha ") == TrimLeft("Alpha ");
      assert TrimLeft("Alpha ") == "Alpha ";
      assert TrimRight("Alpha ") == TrimRight("Alpha");
      assert TrimRight("Alpha") == "Alpha";
    }
  }

  /**
   * The team check of the veto endpoint: the stripped label must equal
   * team_a or team_b exactly; there is no literal "A"/"B" fallback, and an
   * empty label is refused.
   */
  function VetoTeam(teamA: string, teamB: string, raw: string): (r: Option<Team>)
    ensures r == Some(A) <==> Strip(raw) != "" && Strip(raw) == teamA
    ensures r == Some(B) <==> Strip(raw) != "" && Strip(raw) == teamB && Strip(raw) != teamA
  {
    var v := Strip(raw);
    if v != "" && v == teamA then Some(A)
    else if v != "" && v == teamB then Some(B)
    else None
  }

  /**
   * Away from the literal codes and the empty label, the veto endpoint and
   * `_as_team_code` resolve a label to the same team, and refuse the same
   * labels.
   */
  lemma VetoTeamAgreesWithAsTeamCode(teamA: string, teamB: string, raw: string, t: Team)
    requires Strip(raw) !in {"", "A", "B"}
    ensures VetoTeam(teamA, teamB, raw) == Some(t) <==> AsTeamCode(teamA, teamB, raw) == Ok(t)
  {
  }

  /** An empty label names a team with an empty name for one, never for the other. */
  lemma EmptyLabelRefusedByVeto(teamB: string, raw: string)
    requires Strip(raw) == ""
    ensures VetoTeam("", teamB, raw) == None
    ensures AsTeamCode("", teamB, raw) == Ok(A)
  {
  }

  /** A code the endpoint cannot take unless a team carries it as its name. */
  lemma VetoRefusesLiteralCodes(teamA: string, teamB: string)
    requires teamA !in {"A", "B"} && teamB !in {"A", "B"}
    ensures VetoTeam(teamA, teamB, "A") == None && VetoTeam(teamA, teamB, "B") == None
    ensures AsTeamCode(teamA, teamB, "A") == Ok(A) && AsTeamCode(teamA, teamB, "B") == Ok(B)
  {
    StripTrimmed("A");
    StripTrimmed("B");
  }

  // ---- the veto endpoint ----

  predicate StepTaken(actions: seq<Action>, step: nat) {
    exists i :: 0 <= i < |actions| && actions[i].step == step
  }

  /**
   * `SeriesViewSet.veto` as written: the team label must name a team, the
   * map and the mode must exist, and the new ban action is numbered one past
   * the number of actions the series has. The database refuses a second
   * action with the same step.
   */
  function Veto(teamA: string, teamB: string, actions: seq<Action>, c: Catalog, raw: string, p: MapId, k: ModeId): (r: Result<Action, string>)
    ensures r.Ok? <==> VetoTeam(teamA, teamB, raw).Some? && p in c.maps && k in c.modes && !StepTaken(actions, |actions| + 1)
    ensures r.Ok? ==> r.value == Action(|actions| + 1, BanAction, VetoTeam(teamA, teamB, raw).value, p, k)
    ensures VetoTeam(teamA, teamB, raw).None? ==> r == Fail("Invalid or missing team")
  {
    var team := VetoTeam(teamA, teamB, raw);
    if team.None? then Fail("Invalid or missing team")
    else if p !in c.maps || k !in c.modes then Fail("Invalid map or mode")
    else
      var step := |actions| + 1;
      if StepTaken(actions, step) then Fail("IntegrityError")
      else Ok(Action(step, BanAction, team.value, p, k))
  }

  /** The actions are numbered 1, 2, ... in order. */
  predicate StepsConsecutive(actions: seq<Action>) {
    forall i :: 0 <= i < |actions| ==> actions[i].step == i + 1
  }

  /** While actions only come from this endpoint, numbering stays 1, 2, .... */
  lemma VetoKeepsStepsConsecutive(teamA: string, teamB: string, actions: seq<Action>, c: Catalog, raw: string, p: MapId, k: ModeId)
    requires StepsConsecutive(actions)
    requires VetoTeam(teamA, teamB, raw).Some? && p in c.maps && k in c.modes
    ensures Veto(teamA, teamB, actions, c, raw, p, k).Ok?
    ensures StepsConsecutive(actions + [Veto(teamA, teamB, actions, c, raw, p, k).value])
  {
    assert forall i :: 0 <= i < |actions| ==> actions[i].step != |actions| + 1;
  }

  /**
   * Once an action has been deleted, the count no longer matches the last
   * step: one action left with step 2 makes the next veto reuse step 2, and
   * the insert is refused.
   */
  lemma VetoStepCollision()
    ensures var c := Catalog(map[1 := GameMode("Slayer", false)], map[10 := MapEntry("Aquarius", {1})]);
      && VetoTeam("Alpha", "Bravo", "Alpha") == Some(A)
      && Veto("Alpha", "Bravo", [Action(2, BanAction, B, 10, 1)], c, "Alpha", 10, 1) == Fail("IntegrityError")
  {
    StripTrimmed("Alpha");
    assert [Action(2, BanAction, B, 10, 1)][0].step == 2;
  }

  /** The largest step in use, 0 for none. */
  function MaxStep(actions: seq<Action>): (m: nat)
    ensures forall i :: 0 <= i < |actions| ==> actions[i].step <= m
    ensures actions == [] || StepTaken(actions, m)
  {
    if actions == [] then 0
    else
      var rest := MaxStep(actions[..|actions| - 1]);
      var last := actions[|actions| - 1].step;
      assert forall i :: 0 <= i < |actions| - 1 ==> actions[..|actions| - 1][i] == actions[i];
      if last > rest then last else rest
  }

  /** The step a new action should take: one past the largest in use. */
  function NextStep(actions: seq<Action>): (n: nat)
    ensures !StepTaken(actions, n)
    ensures StepsConsecutive(actions) ==> n == |actions| + 1
  {
    assert StepsConsecutive(actions) && actions != [] ==> actions[|actions| - 1].step == |actions|;
    MaxStep(actions) + 1
  }

  /**
   * The veto endpoint numbering its action one past the largest step in
   * use: it never collides, and agrees with `Veto` while the steps run
   * 1, 2, ....
   */
  function VetoNextStep(teamA: string, teamB: string, actions: seq<Action>, c: Catalog, raw: string, p: MapId, k: ModeId): (r: Result<Action, string>)
    ensures r.Ok? <==> VetoTeam(teamA, teamB, raw).Some? && p in c.maps && k in c.modes
    ensures r.Ok? ==> !StepTaken(actions, r.value.step)
    ensures r.Ok? ==> r.value == Action(r.value.step, BanAction, VetoTeam(teamA, teamB, raw).value, p, k)
    ensures StepsConsecutive(actions) ==> r == Veto(teamA, teamB, actions, c, raw, p, k)
  {
    var team := VetoTeam(teamA, teamB, raw);
    if team.None? then Fail("Invalid or missing team")
    else if p !in c.maps || k !in c.modes then Fail("Invalid map or mode")
    else Ok(Action(NextStep(actions), BanAction, team.value, p, k))
  }

  // ---- map/mode legality of an action ----

  /**
   * `ActionViewSet._validate_map_mode`: when both a map and a mode are
   * given, the mode must be one of the map's modes.
   */
  function ValidateMapMode(c: Catalog, p: Option<MapId>, k: Option<ModeId>): (r: Result<(), string>)
    requires p.Some? ==> p.value in c.maps
    ensures r.Fail? <==> p.Some? && k.Some? && !Supports(c, p.value, k.value)
    ensures r.Fail? ==> r.error == "Selected mode is not allowed on this map."
  {
    if p.Some? && k.Some? && k.value !in c.maps[p.value].modes then
      Fail("Selected mode is not allowed on this map.")
    else Ok(())
  }

  // ---- the rows the listings read ----

  datatype ModeRow = ModeRow(id: ModeId, name: string, isObjective: Option<bool>)

  datatype MapRow = MapRow(id: MapId, name: string, modes: seq<ModeRow>)

  /**
   * The rows list the catalog: each row is a map of the catalog with
   * exactly that map's modes, under their names, and every map has a row.
   */
  ghost predicate RowsOf(rows: seq<MapRow>, c: Catalog) {
    && (forall i :: 0 <= i < |rows| ==> rows[i].id in c.maps && rows[i].name == c.maps[rows[i].id].name)
    && (forall i, j :: 0 <= i < |rows| && 0 <= j < |rows[i].modes| ==> rows[i].modes[j].id in c.maps[rows[i].id].modes)
    && (forall i, k :: 0 <= i < |rows| && k in c.maps[rows[i].id].modes ==>
          exists j :: 0 <= j < |rows[i].modes| && rows[i].modes[j].id == k)
    && (forall p :: p in c.maps ==> exists i :: 0 <= i < |rows| && rows[i].id == p)
  }

  /** Objective by the flag, or by `name != "Slayer"` when the flag is absent. */
  function IsObjective(gm: ModeRow): bool {
    match gm.isObjective
    case Some(flag) => flag
    case None => gm.name != "Slayer"
  }

  /**
   * The two filters of the listings: the mode name, compared
   * case-insensitively, and the type, where "objective" in any case asks
   * for objective modes and any other value for the rest.
   */
  predicate Passes(gm: ModeRow, qMode: string, qType: string) {
    && (qMode == "" || Lower(gm.name) == Lower(qMode))
    && (qType == "" || (Lower(qType) == "objective") == IsObjective(gm))
  }

  // ---- the flat listing ----

  datatype Combo = Combo(mapId: MapId, mapName: string, modeId: ModeId, modeName: string, isObjective: bool)

  function ComboOf(m: MapRow, gm: ModeRow): Combo {
    Combo(m.id, m.name, gm.id, gm.name, IsObjective(gm))
  }

  /** The combos of map `m` with the given modes that pass the filters, in order. */
  function RowCombos(m: MapRow, modes: seq<ModeRow>, qMode: string, qType: string): seq<Combo> {
    if modes == [] then []
    else
      var gm := modes[|modes| - 1];
      RowCombos(m, modes[..|modes| - 1], qMode, qType) + (if Passes(gm, qMode, qType) then [ComboOf(m, gm)] else [])
  }

  /** The combos of all rows that pass the filters, in query order. */
  function FilteredCombos(rows: seq<MapRow>, qMode: string, qType: string): seq<Combo> {
    if rows == [] then []
    else
      var m := rows[|rows| - 1];
      FilteredCombos(rows[..|rows| - 1], qMode, qType) + RowCombos(m, m.modes, qMode, qType)
  }

  lemma {:induction false} RowCombosMembers(m: MapRow, modes: seq<ModeRow>, qMode: string, qType: string, x: Combo)
    ensures x in RowCombos(m, modes, qMode, qType) <==>
      exists j :: 0 <= j < |modes| && Passes(modes[j], qMode, qType) && x == ComboOf(m, modes[j])
  {
    if modes != [] {
      var init := modes[..|modes| - 1];
      RowCombosMembers(m, init, qMode, qType, x);
      assert forall j :: 0 <= j < |init| ==> init[j] == modes[j];
    }
  }

  /**
   * The flat listing holds exactly the (map, mode) pairs of the rows that
   * pass both filters.
   */
  lemma {:induction false} FilteredCombosMembers(rows: seq<MapRow>, qMode: string, qType: string, x: Combo)
    ensures x in FilteredCombos(rows, qMode, qType) <==>
      exists i, j :: 0 <= i < |rows| && 0 <= j < |rows[i].modes| && Passes(rows[i].modes[j], qMode, qType)
        && x == ComboOf(rows[i], rows[i].modes[j])
  {
    if rows != [] {
      var init := rows[..|rows| - 1];
      var m := rows[|rows| - 1];
      FilteredCombosMembers(init, qMode, qType, x);
      RowCombosMembers(m, m.modes, qMode, qType, x);
      assert forall i :: 0 <= i < |init| ==> init[i] == rows[i];
      if x in RowCombos(m, m.modes, qMode, qType) {
        var j :| 0 <= j < |m.modes| && Passes(m.modes[j], qMode, qType) && x == ComboOf(m, m.modes[j]);
        assert rows[|rows| - 1].modes[j] == m.modes[j];
      }
    }
  }

  /** The sort key `(mode, map)`, compared as Python compares tuples of strings. */
  predicate ComboLe(x: Combo, y: Combo) {
    StrLt(x.modeName, y.modeName) || (x.modeName == y.modeName && StrLe(x.mapName, y.mapName))
  }

  lemma ComboLeTotalPreorder()
    ensures TotalPreorder(ComboLe)
  {
    forall x: Combo, y: Combo ensures ComboLe(x, y) || ComboLe(y, x) {
      StrLeTotal(x.modeName, y.modeName);
      StrLeTotal(x.mapName, y.mapName);
    }
    forall x: Combo, y: Combo, z: Combo | ComboLe(x, y) && ComboLe(y, z) ensures ComboLe(x, z) {
      if x.modeName == y.modeName && y.modeName == z.modeName {
        StrLeTrans(x.mapName, y.mapName, z.mapName);
      } else if x.modeName != y.modeName && y.modeName != z.modeName {
        StrLeTrans(x.modeName, y.modeName, z.modeName);
        if x.modeName == z.modeName {
          StrLeAntisym(x.modeName, y.modeName);
        }
      }
    }
  }

  /** What `MapModeComboView.get` returns: the filtered combos sorted by (mode, map). */
  function Combos(rows: seq<MapRow>, qMode: string, qType: string): (r: seq<Combo>)
    ensures multiset(r) == multiset(FilteredCombos(rows, qMode, qType))
    ensures Sorted(r, ComboLe)
  {
    ComboLeTotalPreorder();
    SortBy(FilteredCombos(rows, qMode, qType), ComboLe)
  }

  /** `MapModeComboView.get`: the nested loop over maps and their modes, then the sort. */
  method MapModeComboView(rows: seq<MapRow>, qMode: string, qType: string) returns (combos: seq<Combo>)
    ensures combos == Combos(rows, qMode, qType)
  {
    combos := [];
    for i := 0 to |rows|
      invariant combos == FilteredCombos(rows[..i], qMode, qType)
    {
      var m := rows[i];
      for j := 0 to |m.modes|
        invariant combos == FilteredCombos(rows[..i], qMode, qType) + RowCombos(m, m.modes[..j], qMode, qType)
      {
        var gm := m.modes[j];
        assert m.modes[..j + 1][..j] == m.modes[..j];
        if qMode != "" && Lower(gm.name) != Lower(qMode) {
          continue;
        }
        var isObj := if gm.isObjective.Some? then gm.isObjective.value else gm.name != "Slayer";
        if qType != "" {
          var wantObj := Lower(qType) == "objective";
          if wantObj != isObj {
            continue;
          }
        }
        combos := combos + [Combo(m.id, m.name, gm.id, gm.name, isObj)];
      }
      assert m.modes[..|m.modes|] == m.modes;
      assert rows[..i + 1][..i] == rows[..i];
    }
    assert rows[..|rows|] == rows;
    ComboLeTotalPreorder();
    combos := SortBy(combos, ComboLe);
  }

  /**
   * Over rows that list the catalog, with no filter, the flat listing holds
   * a (map, mode) pair exactly when `_validate_map_mode` accepts it.
   */
  lemma CombosMatchValidateMapMode(rows: seq<MapRow>, c: Catalog, p: MapId, k: ModeId)
    requires RowsOf(rows, c) && p in c.maps
    ensures ValidateMapMode(c, Some(p), Some(k)).Ok? <==>
      exists x :: x in Combos(rows, "", "") && x.mapId == p && x.modeId == k
  {
    if k in c.maps[p].modes {
      SupportedIsListed(rows, c, p, k);
    }
    if exists x :: x in Combos(rows, "", "") && x.mapId == p && x.modeId == k {
      var x :| x in Combos(rows, "", "") && x.mapId == p && x.modeId == k;
      ListedIsSupported(rows, c, x);
    }
  }

  lemma SupportedIsListed(rows: seq<MapRow>, c: Catalog, p: MapId, k: ModeId)
    requires RowsOf(rows, c) && p in c.maps && k in c.maps[p].modes
    ensures exists x :: x in Combos(rows, "", "") && x.mapId == p && x.modeId == k
  {
    var i :| 0 <= i < |rows| && rows[i].id == p;
    var j :| 0 <= j < |rows[i].modes| && rows[i].modes[j].id == k;
    var x := ComboOf(rows[i], rows[i].modes[j]);
    assert Passes(rows[i].modes[j], "", "");
    FilteredCombosMembers(rows, "", "", x);
    assert x in multiset(Combos(rows, "", ""));
  }

  lemma ListedIsSupported(rows: seq<MapRow>, c: Catalog, x: Combo)
    requires RowsOf(rows, c) && x in Combos(rows, "", "")
    ensures x.mapId in c.maps && x.modeId in c.maps[x.mapId].modes
  {
    assert x in multiset(FilteredCombos(rows, "", ""));
    FilteredCombosMembers(rows, "", "", x);
    var i, j :| 0 <= i < |rows| && 0 <= j < |rows[i].modes| && Passes(rows[i].modes[j], "", "")
      && x == ComboOf(rows[i], rows[i].modes[j]);
    assert rows[i].modes[j].id in c.maps[rows[i].id].modes;
  }

  // ---- the grouped listing ----

  datatype MapCombo = MapCombo(mapId: MapId, mapName: string)

  datatype ModeGroup = ModeGroup(modeId: ModeId, modeName: string, isObjective: bool, combos: seq<MapCombo>)

  /** The `bucket` dict: its groups by mode id, and the order keys were first added. */
  datatype Buckets = Buckets(order: seq<ModeId>, groups: map<ModeId, ModeGroup>)

  datatype Grouping = Grouping(objective: seq<ModeGroup>, slayer: seq<ModeGroup>)

  /** The maps of the combos of mode `k`, in order. */
  function ModeCombos(cs: seq<Combo>, k: ModeId): seq<MapCombo> {
    if cs == [] then []
    else
      var c := cs[|cs| - 1];
      ModeCombos(cs[..|cs| - 1], k) + (if c.modeId == k then [MapCombo(c.mapId, c.mapName)] else [])
  }

  lemma {:induction false} ModeCombosNone(cs: seq<Combo>, k: ModeId)
    requires forall i :: 0 <= i < |cs| ==> cs[i].modeId != k
    ensures ModeCombos(cs, k) == []
  {
    if cs != [] {
      ModeCombosNone(cs[..|cs| - 1], k);
    }
  }

  /** One step of the bucket loop: open the mode's group if new, then append the map. */
  function AddCombo(b: Buckets, c: Combo): Buckets {
    var b1 := if c.modeId in b.groups then b
              else Buckets(b.order + [c.modeId], b.groups[c.modeId := ModeGroup(c.modeId, c.modeName, c.isObjective, [])]);
    var g := b1.groups[c.modeId];
    b1.(groups := b1.groups[c.modeId := g.(combos := g.combos + [MapCombo(c.mapId, c.mapName)])])
  }

  predicate Distinct(s: seq<ModeId>) {
    forall i, j :: 0 <= i < j < |s| ==> s[i] != s[j]
  }

  /**
   * `b` is the bucket dict after the combos `cs`: one group per mode that
   * occurs, listed once in first-seen order, headed by one of that mode's
   * combos and holding the maps of all its combos in order.
   */
  ghost predicate BucketsFor(b: Buckets, cs: seq<Combo>) {
    && (forall k :: k in b.groups <==> k in b.order)
    && Distinct(b.order)
    && (forall i :: 0 <= i < |cs| ==> cs[i].modeId in b.groups)
    && (forall k :: k in b.groups ==> b.groups[k].modeId == k && b.groups[k].combos == ModeCombos(cs, k))
    && (forall k :: k in b.groups ==> exists i :: (0 <= i < |cs| && cs[i].modeId == k
          && cs[i].modeName == b.groups[k].modeName && cs[i].isObjective == b.groups[k].isObjective))
  }

  lemma AddComboKeeps(b: Buckets, cs: seq<Combo>, c: Combo)
    requires BucketsFor(b, cs)
    ensures BucketsFor(AddCombo(b, c), cs + [c])
  {
    var r := AddCombo(b, c);
    var cs' := cs + [c];
    assert cs'[..|cs|] == cs;
    forall k | k in r.groups
      ensures r.groups[k].modeId == k && r.groups[k].combos == ModeCombos(cs', k)
    {
      assert ModeCombos(cs', k) == ModeCombos(cs, k) + (if c.modeId == k then [MapCombo(c.mapId, c.mapName)] else []);
      if k == c.modeId && k !in b.groups {
        ModeCombosNone(cs, k);
      }
    }
    forall k | k in r.groups
      ensures exists i :: (0 <= i < |cs'| && cs'[i].modeId == k
        && cs'[i].modeName == r.groups[k].modeName && cs'[i].isObjective == r.groups[k].isObjective)
    {
      if k in b.groups {
        var i :| 0 <= i < |cs| && cs[i].modeId == k
          && cs[i].modeName == b.groups[k].modeName && cs[i].isObjective == b.groups[k].isObjective;
        assert cs'[i] == cs[i];
      } else {
        assert cs'[|cs|] == c;
      }
    }
    forall i | 0 <= i < |cs'| ensures cs'[i].modeId in r.groups {
      if i < |cs| {
        assert cs'[i] == cs[i];
      }
    }
  }

  /** The bucket dict after the combos `cs`. */
  function BucketsOf(cs: seq<Combo>): Buckets {
    if cs == [] then Buckets([], map[])
    else AddCombo(BucketsOf(cs[..|cs| - 1]), cs[|cs| - 1])
  }

  /** The bucket dict after the combos `cs` is the one `BucketsFor` describes. */
  lemma {:induction false} BucketsOfFor(cs: seq<Combo>)
    ensures BucketsFor(BucketsOf(cs), cs)
  {
    if cs != [] {
      var init := cs[..|cs| - 1];
      assert cs == init + [cs[|cs| - 1]];
      BucketsOfFor(init);
      AddComboKeeps(BucketsOf(init), init, cs[|cs| - 1]);
    }
  }

  /** Groups in mode-name order, as `sort(key=lambda x: x["mode"])`. */
  predicate GroupLe(x: ModeGroup, y: ModeGroup) {
    StrLe(x.modeName, y.modeName)
  }

  /** Maps in name order, as `sort(key=lambda x: x["map"])`. */
  predicate MapComboLe(x: MapCombo, y: MapCombo) {
    StrLe(x.mapName, y.mapName)
  }

  lemma OrdersTotalPreorder()
    ensures TotalPreorder(GroupLe)
    ensures TotalPreorder(MapComboLe)
  {
    forall x: ModeGroup, y: ModeGroup ensures GroupLe(x, y) || GroupLe(y, x) {
      StrLeTotal(x.modeName, y.modeName);
    }
    forall x: ModeGroup, y: ModeGroup, z: ModeGroup | GroupLe(x, y) && GroupLe(y, z) ensures GroupLe(x, z) {
      StrLeTrans(x.modeName, y.modeName, z.modeName);
    }
    forall x: MapCombo, y: MapCombo ensures MapComboLe(x, y) || MapComboLe(y, x) {
      StrLeTotal(x.mapName, y.mapName);
    }
    forall x: MapCombo, y: MapCombo, z: MapCombo | MapComboLe(x, y) && MapComboLe(y, z) ensures MapComboLe(x, z) {
      StrLeTrans(x.mapName, y.mapName, z.mapName);
    }
  }

  function SortCombos(g: ModeGroup): ModeGroup {
    OrdersTotalPreorder();
    g.(combos := SortBy(g.combos, MapComboLe))
  }

  /** The buckets once every group's maps are sorted by name. */
  function SortedGroups(b: Buckets): map<ModeId, ModeGroup> {
    map k | k in b.groups :: SortCombos(b.groups[k])
  }

  predicate IdsDistinct(gs: seq<ModeGroup>) {
    forall i, j :: 0 <= i < j < |gs| ==> gs[i].modeId != gs[j].modeId
  }

  /** The groups, in bucket order, whose objective flag is `want`. */
  function Split(order: seq<ModeId>, groups: map<ModeId, ModeGroup>, want: bool): (r: seq<ModeGroup>)
    requires forall k :: k in order ==> k in groups && groups[k].modeId == k
    ensures forall i :: 0 <= i < |r| ==> r[i].modeId in order && groups[r[i].modeId] == r[i] && r[i].isObjective == want
    ensures forall k :: k in order && groups[k].isObjective == want ==> groups[k] in r
    ensures Distinct(order) ==> IdsDistinct(r)
  {
    if order == [] then []
    else
      var init := order[..|order| - 1];
      var k := order[|order| - 1];
      assert forall k' :: k' in order <==> k' in init || k' == k;
      var rest := Split(init, groups, want);
      rest + (if groups[k].isObjective == want then [groups[k]] else [])
  }

  /** Every mode in the bucket order has its group, under its own id. */
  ghost predicate Keyed(b: Buckets) {
    forall k :: (k in b.groups <==> k in b.order) && (k in b.groups ==> b.groups[k].modeId == k)
  }

  /** The lists built from the buckets: split by flag, each sorted by mode name. */
  function GroupsOf(b: Buckets): Grouping
    requires Keyed(b)
  {
    var sg := SortedGroups(b);
    OrdersTotalPreorder();
    Grouping(SortBy(Split(b.order, sg, true), GroupLe), SortBy(Split(b.order, sg, false), GroupLe))
  }

  /** What `MapModeGroupedView.get` returns. */
  function Grouped(rows: seq<MapRow>, qMode: string, qType: string): Grouping {
    var cs := FilteredCombos(rows, qMode, qType);
    BucketsOfFor(cs);
    GroupsOf(BucketsOf(cs))
  }

  /** A group of the grouped listing is the sorted bucket of its mode, in the list its flag selects. */
  lemma GroupsOfMember(b: Buckets, g: ModeGroup)
    requires Keyed(b)
    requires g in GroupsOf(b).objective + GroupsOf(b).slayer
    ensures g.modeId in b.order && g == SortCombos(b.groups[g.modeId])
    ensures g in GroupsOf(b).objective <==> g.isObjective
    ensures g in GroupsOf(b).slayer <==> !g.isObjective
  {
    var sg := SortedGroups(b);
    var r := GroupsOf(b);
    OrdersTotalPreorder();
    var obj := Split(b.order, sg, true);
    var sla := Split(b.order, sg, false);
    assert multiset(r.objective) == multiset(obj) && multiset(r.slayer) == multiset(sla);
    if g in r.objective {
      assert g in multiset(obj);
      var i :| 0 <= i < |obj| && obj[i] == g;
      assert g !in multiset(sla);
    } else {
      assert g in multiset(sla);
      var i :| 0 <= i < |sla| && sla[i] == g;
      assert g !in multiset(obj);
    }
  }

  /**
   * The objective list holds objective modes only and the slayer list the
   * others, each in mode-name order; within a mode the maps are in name
   * order and are exactly the maps of that mode's combos.
   */
  lemma GroupedShape(rows: seq<MapRow>, qMode: string, qType: string)
    ensures var r := Grouped(rows, qMode, qType);
      && (forall g :: g in r.objective ==> g.isObjective)
      && (forall g :: g in r.slayer ==> !g.isObjective)
      && Sorted(r.objective, GroupLe) && Sorted(r.slayer, GroupLe)
      && (forall g :: g in r.objective + r.slayer ==>
            Sorted(g.combos, MapComboLe)
            && multiset(g.combos) == multiset(ModeCombos(FilteredCombos(rows, qMode, qType), g.modeId)))
  {
    var cs := FilteredCombos(rows, qMode, qType);
    BucketsOfFor(cs);
    var b := BucketsOf(cs);
    var r := GroupsOf(b);
    OrdersTotalPreorder();
    forall g | g in r.objective + r.slayer
      ensures (g in r.objective ==> g.isObjective) && (g in r.slayer ==> !g.isObjective)
      ensures Sorted(g.combos, MapComboLe) && multiset(g.combos) == multiset(ModeCombos(cs, g.modeId))
    {
      GroupsOfMember(b, g);
      assert g.combos == SortBy(b.groups[g.modeId].combos, MapComboLe);
    }
  }

  lemma {:induction false} CountAtMostOne(s: seq<ModeGroup>, x: ModeGroup)
    requires IdsDistinct(s)
    ensures multiset(s)[x] <= 1
  {
    if s != [] {
      var init := s[..|s| - 1];
      assert s == init + [s[|s| - 1]];
      assert IdsDistinct(init);
      CountAtMostOne(init, x);
      if s[|s| - 1] == x {
        assert forall p :: 0 <= p < |init| ==> init[p].modeId != x.modeId;
        assert x !in init;
      }
    }
  }

  lemma CountAtLeastTwo(t: seq<ModeGroup>, i: nat, j: nat)
    requires i < j < |t| && t[i] == t[j]
    ensures multiset(t)[t[i]] >= 2
  {
    assert t == t[..j] + [t[j]] + t[j + 1..];
    assert t[..j][i] == t[i];
    assert multiset(t[..j])[t[i]] >= 1;
  }

  /** Reordering keeps the mode ids of a list of groups distinct. */
  lemma IdsDistinctPerm(s: seq<ModeGroup>, t: seq<ModeGroup>)
    requires multiset(s) == multiset(t) && IdsDistinct(s)
    ensures IdsDistinct(t)
  {
    forall i, j | 0 <= i < j < |t| ensures t[i].modeId != t[j].modeId {
      if t[i] == t[j] {
        CountAtLeastTwo(t, i, j);
        CountAtMostOne(s, t[i]);
      } else {
        assert t[i] in multiset(s) && t[j] in multiset(s);
        var p :| 0 <= p < |s| && s[p] == t[i];
        var q :| 0 <= q < |s| && s[q] == t[j];
        assert p < q || q < p;
      }
    }
  }

  lemma IdsDistinctConcat(o: seq<ModeGroup>, sl: seq<ModeGroup>)
    requires IdsDistinct(o) && IdsDistinct(sl)
    requires forall x, y :: x in o && y in sl ==> x.modeId != y.modeId
    ensures IdsDistinct(o + sl)
  {
    var all := o + sl;
    forall i, j | 0 <= i < j < |all| ensures all[i].modeId != all[j].modeId {
      if j < |o| {
        assert all[i] == o[i] && all[j] == o[j];
      } else if i >= |o| {
        assert all[i] == sl[i - |o|] && all[j] == sl[j - |o|];
      } else {
        assert all[i] in o && all[j] in sl;
      }
    }
  }

  /** No mode has two groups across the two lists. */
  lemma GroupsOfIdsDistinct(b: Buckets)
    requires Keyed(b) && Distinct(b.order)
    ensures IdsDistinct(GroupsOf(b).objective + GroupsOf(b).slayer)
  {
    var r := GroupsOf(b);
    var sg := SortedGroups(b);
    OrdersTotalPreorder();
    IdsDistinctPerm(Split(b.order, sg, true), r.objective);
    IdsDistinctPerm(Split(b.order, sg, false), r.slayer);
    forall x, y | x in r.objective && y in r.slayer ensures x.modeId != y.modeId {
      GroupsOfMember(b, x);
      GroupsOfMember(b, y);
    }
    IdsDistinctConcat(r.objective, r.slayer);
  }

  /** Each bucket's mode has its group in one of the two lists. */
  lemma GroupsOfCovers(b: Buckets, k: ModeId)
    requires Keyed(b) && k in b.groups
    ensures SortCombos(b.groups[k]) in GroupsOf(b).objective + GroupsOf(b).slayer
  {
    var r := GroupsOf(b);
    var sg := SortedGroups(b);
    OrdersTotalPreorder();
    var g := sg[k];
    var part := Split(b.order, sg, g.isObjective);
    assert g in part;
    if g.isObjective {
      assert g in multiset(r.objective);
    } else {
      assert g in multiset(r.slayer);
    }
  }

  /**
   * Every mode with a combo that passes the filters has exactly one group,
   * across both lists.
   */
  lemma GroupedModesOnce(rows: seq<MapRow>, qMode: string, qType: string)
    ensures var r := Grouped(rows, qMode, qType);
      var cs := FilteredCombos(rows, qMode, qType);
      && IdsDistinct(r.objective + r.slayer)
      && (forall i :: 0 <= i < |cs| ==> exists g :: g in r.objective + r.slayer && g.modeId == cs[i].modeId)
  {
    var cs := FilteredCombos(rows, qMode, qType);
    BucketsOfFor(cs);
    var b := BucketsOf(cs);
    var r := GroupsOf(b);
    GroupsOfIdsDistinct(b);
    var all := r.objective + r.slayer;
    forall i | 0 <= i < |cs| ensures exists g :: g in all && g.modeId == cs[i].modeId {
      GroupsOfCovers(b, cs[i].modeId);
      assert SortCombos(b.groups[cs[i].modeId]).modeId == cs[i].modeId;
    }
  }

  /** Every group of `r` carries the mode id, name and flag of one of the combos `cs`. */
  predicate HeadedBy(r: Grouping, cs: seq<Combo>) {
    forall g :: g in r.objective + r.slayer ==> exists i :: (0 <= i < |cs| && cs[i].modeId == g.modeId
      && cs[i].modeName == g.modeName && cs[i].isObjective == g.isObjective)
  }

  /** Every group is headed by the name and flag of one of its mode's combos. */
  lemma GroupedHeads(rows: seq<MapRow>, qMode: string, qType: string)
    ensures HeadedBy(Grouped(rows, qMode, qType), FilteredCombos(rows, qMode, qType))
  {
    var cs := FilteredCombos(rows, qMode, qType);
    BucketsOfFor(cs);
    GroupsOfHeads(BucketsOf(cs), cs);
  }

  /** Each group carries the name and flag of one of its mode's combos. */
  lemma GroupsOfHeads(b: Buckets, cs: seq<Combo>)
    requires BucketsFor(b, cs)
    ensures HeadedBy(GroupsOf(b), cs)
  {
    forall g | g in GroupsOf(b).objective + GroupsOf(b).slayer
      ensures exists i :: (0 <= i < |cs| && cs[i].modeId == g.modeId
        && cs[i].modeName == g.modeName && cs[i].isObjective == g.isObjective)
    {
      GroupsOfMember(b, g);
      var k := g.modeId;
      var i :| 0 <= i < |cs| && cs[i].modeId == k
        && cs[i].modeName == b.groups[k].modeName && cs[i].isObjective == b.groups[k].isObjective;
      assert cs[i].modeName == g.modeName && cs[i].isObjective == g.isObjective;
    }
  }

  /** The listing up to mode `j` of map `i`, one mode further. */
  lemma RowCombosStep(done: seq<Combo>, m: MapRow, j: nat, qMode: string, qType: string)
    requires j < |m.modes|
    ensures done + RowCombos(m, m.modes[..j + 1], qMode, qType)
      == done + RowCombos(m, m.modes[..j], qMode, qType)
         + (if Passes(m.modes[j], qMode, qType) then [ComboOf(m, m.modes[j])] else [])
  {
    assert m.modes[..j + 1][..j] == m.modes[..j];
  }

  /** The listing of the first `i` rows, one row further. */
  lemma FilteredCombosStep(rows: seq<MapRow>, i: nat, qMode: string, qType: string)
    requires i < |rows|
    ensures FilteredCombos(rows[..i + 1], qMode, qType)
      == FilteredCombos(rows[..i], qMode, qType) + RowCombos(rows[i], rows[i].modes[..|rows[i].modes|], qMode, qType)
  {
    assert rows[..i + 1][..i] == rows[..i];
    assert rows[i].modes[..|rows[i].modes|] == rows[i].modes;
  }

  lemma BucketsOfSnoc(cs: seq<Combo>, c: Combo)
    ensures BucketsOf(cs + [c]) == AddCombo(BucketsOf(cs), c)
  {
    assert (cs + [c])[..|cs|] == cs;
  }

  /** The bucket update for one combo: open the mode's entry if new, then append the map. */
  method AddToBucket(order: seq<ModeId>, bucket: map<ModeId, ModeGroup>, c: Combo)
    returns (order': seq<ModeId>, bucket': map<ModeId, ModeGroup>)
    ensures Buckets(order', bucket') == AddCombo(Buckets(order, bucket), c)
  {
    order', bucket' := order, bucket;
    if c.modeId !in bucket' {
      bucket' := bucket'[c.modeId := ModeGroup(c.modeId, c.modeName, c.isObjective, [])];
      order' := order' + [c.modeId];
    }
    bucket' := bucket'[c.modeId := bucket'[c.modeId].(combos := bucket'[c.modeId].combos + [MapCombo(c.mapId, c.mapName)])];
  }

  /** The first loop of `MapModeGroupedView.get`: filter the rows' combos into buckets. */
  method FillBuckets(rows: seq<MapRow>, qMode: string, qType: string) returns (b: Buckets)
    ensures b == BucketsOf(FilteredCombos(rows, qMode, qType))
  {
    var qt := Lower(qType);
    assert qt == "" <==> qType == "";
    var order: seq<ModeId> := [];
    var bucket: map<ModeId, ModeGroup> := map[];
    for i := 0 to |rows|
      invariant Buckets(order, bucket) == BucketsOf(FilteredCombos(rows[..i], qMode, qType))
    {
      var m := rows[i];
      ghost var done := FilteredCombos(rows[..i], qMode, qType);
      assert done + RowCombos(m, m.modes[..0], qMode, qType) == done by {
        assert m.modes[..0] == [];
      }
      for j := 0 to |m.modes|
        invariant Buckets(order, bucket) == BucketsOf(done + RowCombos(m, m.modes[..j], qMode, qType))
      {
        var gm := m.modes[j];
        ghost var before := done + RowCombos(m, m.modes[..j], qMode, qType);
        RowCombosStep(done, m, j, qMode, qType);
        assert before + [] == before;
        if qMode != "" && Lower(gm.name) != Lower(qMode) {
          continue;
        }
        var isObj := if gm.isObjective.Some? then gm.isObjective.value else gm.name != "Slayer";
        if qt != "" {
          var wantObj := qt == "objective";
          if wantObj != isObj {
            continue;
          }
        }
        var c := Combo(m.id, m.name, gm.id, gm.name, isObj);
        assert Passes(gm, qMode, qType) && ComboOf(m, gm) == c;
        BucketsOfSnoc(before, c);
        order, bucket := AddToBucket(order, bucket, c);
      }
      FilteredCombosStep(rows, i, qMode, qType);
    }
    assert rows[..|rows|] == rows;
    b := Buckets(order, bucket);
  }

  /** `for v in bucket.values(): v["combos"].sort(key=lambda x: x["map"])`. */
  method SortBuckets(b: Buckets) returns (bucket: map<ModeId, ModeGroup>)
    requires forall k :: k in b.groups <==> k in b.order
    requires Distinct(b.order)
    ensures bucket == SortedGroups(b)
  {
    bucket := b.groups;
    OrdersTotalPreorder();
    for n := 0 to |b.order|
      invariant forall k :: k in bucket <==> k in b.groups
      invariant forall k :: k in bucket ==> bucket[k] == if k in b.order[..n] then SortCombos(b.groups[k]) else b.groups[k]
    {
      var k := b.order[n];
      assert b.order[..n + 1] == b.order[..n] + [k];
      assert k !in b.order[..n];
      bucket := bucket[k := bucket[k].(combos := SortBy(bucket[k].combos, MapComboLe))];
    }
    assert b.order[..|b.order|] == b.order;
  }

  /** The loop splitting the buckets, in order, into objective and slayer groups. */
  method SplitBuckets(order: seq<ModeId>, bucket: map<ModeId, ModeGroup>) returns (objective: seq<ModeGroup>, slayer: seq<ModeGroup>)
    requires forall k :: k in order ==> k in bucket && bucket[k].modeId == k
    ensures objective == Split(order, bucket, true) && slayer == Split(order, bucket, false)
  {
    objective, slayer := [], [];
    for n := 0 to |order|
      invariant objective == Split(order[..n], bucket, true)
      invariant slayer == Split(order[..n], bucket, false)
    {
      var v := bucket[order[n]];
      assert order[..n + 1][..n] == order[..n];
      if v.isObjective {
        objective := objective + [v];
      } else {
        slayer := slayer + [v];
      }
    }
    assert order[..|order|] == order;
  }

  /** `MapModeGroupedView.get`: fill the buckets, sort each, split them, sort the groups. */
  method MapModeGroupedView(rows: seq<MapRow>, qMode: string, qType: string) returns (r: Grouping)
    ensures r == Grouped(rows, qMode, qType)
  {
    var b := FillBuckets(rows, qMode, qType);
    BucketsOfFor(FilteredCombos(rows, qMode, qType));
    var bucket := SortBuckets(b);
    var objective, slayer := SplitBuckets(b.order, bucket);
    OrdersTotalPreorder();
    objective := SortBy(objective, GroupLe);
    slayer := SortBy(slayer, GroupLe);
    r := Grouping(objective, slayer);
  }
}
