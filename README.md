# Veto server core, modelled in Dafny

This project models the server side of a Halo map/mode veto web app. A
*series* between two teams goes through a fixed ceremony:

1. roles are assigned;
2. a series type is confirmed (Bo3, Bo5 or Bo7), which creates one round per
   template slot (objective or Slayer);
3. seven bans follow a fixed schedule: five objective-combo bans alternating
   A, B, A, B, A, then one Slayer-map ban each, B first;
4. the games are picked one by one, team B picking odd games and team A even
   games, with no map picked twice, no banned combo picked for an objective
   game and no Slayer-banned map picked for a Slayer game (a Slayer-banned
   map may still be picked for an objective game, and a map from a banned
   combo with another mode or for Slayer);
5. the series is complete.

An undo takes back the last ban or pick, and a reset returns the series to a
fresh state. Around this engine sit the API's pure helpers (team-label
resolution, the older `veto` endpoint, the map/mode legality check on actions,
a flat and a grouped listing of legal map × mode combos) and the `seed_hcs`
command, which writes the official HCS map/mode table.

Layout:

- `wrappers.dfy` (`Wrappers`): `Option` and `Result`.
- `text.dfy` (`Text`): `str.strip()` and `str.lower()` on ASCII, integer
  formatting, and the code-point order Python uses to compare strings, with
  its total-order lemmas.
- `sorting.dfy` (`Sorting`): `list.sort(key=...)` as an insertion sort over a
  total preorder.
- `models.dfy` (`Models`): the record types (game mode, map, catalog, series,
  round, ban, action), their enumerations, and the `__str__` texts of rounds
  and bans.
- `tsd_spec.dfy` (`TsdSpec`): the ceremony as values. It holds the schedule,
  the slot templates, the expected turn, and the invariant `Valid`. Each
  entry point is a function from the series before the call to the series
  after it, or to the error raised.
- `tsd_machine.dfy` (`TsdMachine`): class `Series`, whose fields are the
  series row with its rounds and bans. Its methods perform the entry points
  in place. Each method is proved to produce exactly the result of the
  matching `TsdSpec` function, or to leave the series untouched and return
  that function's error, and to keep `Valid`.
- `views.dfy` (`Views`): the view logic. The map query result is a parameter
  `rows`.
- `seed_hcs.dfy` (`SeedHcs`): the official table, its inversion into the
  modes of each map, and the final sweep.

In these places the model follows the code, whose consequences a reader
may not expect:

- `confirm_tsd` sets the series type and ruleset on the fetched row, but the
  only save that follows lists other fields. The stored series type and
  ruleset therefore stay empty (`TsdSpec.ConfirmTsdLeavesTypeUnset`), and
  the invariant asks only that the rounds follow one of the templates. This
  is listed under "## Findings".
- Undo cannot take back the seventh ban. That ban opens the pick window at
  round 0, where undo finds nothing to undo (`TsdSpec.UndoCannotRevertLastBan`).
- Undo cannot take back the final pick. The series is then complete, and
  undo is refused there (`TsdSpec.UndoCannotRevertFinalPick`).
- The turn check runs before every other guard. A Slayer pick asked for on an
  objective round is therefore a `TurnError`, not the "This round is not
  Slayer" guard (`TsdSpec.SlayerPickOnObjectiveSlot`).
- The `veto` endpoint resolves team labels differently from `_as_team_code`:
  it does not accept the literal codes "A"/"B", and it refuses an empty
  label. Unlike the engine's ban and pick entry points, it also does not
  check that the mode is legal on the map.
- A ban of kind OBJECTIVE_COMBO whose mode is itself named "Slayer" prints in
  the same "banned Slayer on" form as a Slayer-map ban
  (`Models.BanLabelSlayerForm`).

Errors are values: `TsdSpec.Error` is `GuardError`, `TurnError`, or
`NotFound` for a lookup by an unknown id (`DoesNotExist`).

## Model

| member | source | states |
|---|---|---|
| Models.ParseState | server/veto/models.py:14-20 | a text read back as a series state is that state's stored value |
| Models.StateValuesRoundTrip | server/veto/models.py:14-20 | every state reads back as itself, and exactly the six stored values are states |
| Models.CreateGameMode | server/veto/models.py:3-6 | creating a mode succeeds exactly when its name is unused; `is_objective` defaults to false; the catalog stays well formed |
| Models.CreateMap | server/veto/models.py:31-34 | creating a map succeeds exactly when its name is unused; it starts with no modes; the catalog stays well formed |
| Models.RoundLabelPending | server/veto/models.py:81-85 | a round's text ends in "(pending)" exactly when no map is picked for it |
| Models.BanLabelSlayerForm | server/veto/models.py:110-113 | a ban prints as "T banned Slayer on M (step n)" exactly when it is a Slayer-map ban or an objective ban of a mode named "Slayer" |
| TsdSpec.PickingTeamAlternates | server/veto/machine_tsd.py:27-29 | team B picks game 1, the picking team alternates, and B picks exactly the odd games |
| TsdSpec.ExpectTurn | server/veto/machine_tsd.py:59-64 | no error exactly when team, action and kind equal the stored turn; every error is a TurnError |
| TsdSpec.AdvanceBanTurn | server/veto/machine_tsd.py:73-89 | the next schedule entry becomes the turn; after the seventh ban the pick window opens at round 0 with B to pick the first slot's kind; rounds and bans unchanged |
| TsdSpec.AdvanceRound | server/veto/machine_tsd.py:221-233 | the next round with the alternating team and the slot's kind, or SERIES_COMPLETE with no turn after the last round |
| TsdSpec.SlayerMode | server/veto/machine_tsd.py:212 | the mode named "Slayer", which is the only one with that name |
| TsdSpec.AssignRoles | server/veto/machine_tsd.py:111-120 | succeeds exactly in IDLE, storing both names and moving to SERIES_SETUP with rounds, bans, turn, indices, type and ruleset kept; otherwise the IDLE-only guard error |
| TsdSpec.ConfirmTsd | server/veto/machine_tsd.py:96-109 | succeeds exactly from IDLE/SERIES_SETUP with a known type; the two guard errors otherwise; exactly one unpicked round per template slot, ban phase with A to ban an objective combo; the teams, round index, stored series type, ruleset and bans unchanged |
| TsdSpec.ConfirmTsdSaved | server/veto/machine_tsd.py:96-109 | the corrected step: succeeds and fails exactly as `ConfirmTsd`, and differs from it only by storing the given series type and ruleset |
| TsdSpec.BanObjectiveCombo | server/veto/machine_tsd.py:122-143 | TurnError exactly when the turn differs; otherwise NotFound exactly for an unknown mode id, or an unknown map id with an objective mode, and a GuardError for every other refusal; success exactly for an objective mode the map supports and not yet banned as a combo; appends the ban at the current step, then advances |
| TsdSpec.BanSlayerMap | server/veto/machine_tsd.py:145-163 | TurnError exactly when the turn differs; otherwise NotFound exactly for an unknown map id, and a GuardError for every other refusal; success exactly for a map with a Slayer mode not yet Slayer-banned; appends the ban, then advances |
| TsdSpec.PickObjectiveCombo | server/veto/machine_tsd.py:165-191 | TurnError exactly when the turn differs; otherwise NotFound exactly for an unknown mode or map id, and a GuardError for every other refusal; success exactly for a supported objective combo that is not banned, on a map no round has picked; fills the current objective round, then advances |
| TsdSpec.PickSlayerMap | server/veto/machine_tsd.py:193-219 | TurnError exactly when the turn differs; otherwise NotFound exactly for an unknown map id, and a GuardError for every other refusal; success exactly for a Slayer map not Slayer-banned and not picked; fills the current Slayer round with the Slayer mode, then advances |
| TsdSpec.UndoLast | server/veto/machine_tsd.py:235-285 | succeeds exactly with a ban in the ban phase, or with a picked current round or an earlier round in the pick window; drops the last ban and rewinds the turn, or clears one round and recomputes its turn; "Nothing to undo" with no ban or at an unpicked round 0, "Undo not available" in other states; every failure is a GuardError; teams, series type and ruleset kept, and the round index (ban phase) or ban index (pick window) too |
| TsdSpec.Reset | server/veto/machine_tsd.py:287-299 | from any state, the series equals a new series with the same teams |
| TsdSpec.NewSeriesValid | server/veto/models.py:42-53 | a newly created series satisfies the invariant |
| TsdSpec.ResetValid | server/veto/machine_tsd.py:287-299 | reset yields a valid series from any state |
| TsdSpec.AssignRolesKeepsValid | server/veto/machine_tsd.py:111-120 | assign_roles keeps the invariant |
| TsdSpec.ConfirmTsdKeepsValid | server/veto/machine_tsd.py:96-109 | confirm_tsd keeps the invariant |
| TsdSpec.ConfirmTsdLeavesTypeUnset | server/veto/machine_tsd.py:66-71 | after a successful confirm the stored series type and ruleset are still empty, so the type names no template, while the rounds follow the template asked for |
| TsdSpec.ConfirmTsdSavedNamesTemplate | server/veto/machine_tsd.py:96-109 | the corrected confirm keeps the invariant, and its stored series type names the template the rounds follow |
| TsdSpec.AppendBanKeepsValid | server/veto/machine_tsd.py:138-142 | recording the scheduled ban at the current step, repeating no earlier ban, and advancing keeps the invariant |
| TsdSpec.BanObjectiveComboKeepsValid | server/veto/machine_tsd.py:122-143 | an objective-combo ban keeps the invariant |
| TsdSpec.BanSlayerMapKeepsValid | server/veto/machine_tsd.py:145-163 | a Slayer-map ban keeps the invariant |
| TsdSpec.FillRoundKeepsValid | server/veto/machine_tsd.py:185-190 | filling the current round with an unused map by the team on turn, then advancing, keeps the invariant |
| TsdSpec.PickObjectiveComboKeepsValid | server/veto/machine_tsd.py:165-191 | an objective pick keeps the invariant |
| TsdSpec.PickSlayerMapKeepsValid | server/veto/machine_tsd.py:193-219 | a Slayer pick keeps the invariant |
| TsdSpec.UndoLastKeepsValid | server/veto/machine_tsd.py:235-285 | undo keeps the invariant |
| TsdSpec.UndoRevertsBan | server/veto/machine_tsd.py:239-249 | undo after any of the first six bans gives back exactly the series before that ban |
| TsdSpec.UndoCannotRevertLastBan | server/veto/machine_tsd.py:251-271 | after the seventh ban the series is in the pick window and undo fails with "Nothing to undo" |
| TsdSpec.UndoRevertsPick | server/veto/machine_tsd.py:251-283 | undo after a pick that leaves the pick window open gives back exactly the series before that pick |
| TsdSpec.UndoCannotRevertFinalPick | server/veto/machine_tsd.py:221-233 | after the last pick, objective or Slayer, the series is valid and complete, and undo is refused as not available (machine_tsd.py:285) |
| TsdSpec.SlayerPickOnObjectiveSlot | server/veto/machine_tsd.py:194-202 | a Slayer pick on an objective round fails with a TurnError (wrong kind, or not your turn) before the slot guard |
| TsdSpec.Bo3Ceremony | server/veto/machine_tsd.py:96-143 | a Bo3 is Objective, Slayer, Objective with A to ban first and the stored type still empty; the same combo cannot be banned twice |
| TsdSpec.RepeatedComboBanRefused | server/veto/machine_tsd.py:135-136 | once a combo is banned, the next team's ban of the same combo is refused as already banned |
| TsdSpec.BanPhaseEndsAfterSevenBans | server/veto/machine_tsd.py:73-89 | a ban opens the pick window exactly when it is the seventh, and then B picks an objective combo for game 1 |
| TsdMachine.Series.constructor | server/veto/models.py:42-53 | a new series has every field at its default and is valid |
| TsdMachine.Series.ExpectTurn | server/veto/machine_tsd.py:59-64 | returns no error exactly when the stored turn is the one asked for, and the same error as the specification otherwise |
| TsdMachine.Series.StartBanPhase | server/veto/machine_tsd.py:66-71 | ban phase at step 0 with A to ban an objective combo; nothing else changes |
| TsdMachine.Series.AdvanceBanTurn | server/veto/machine_tsd.py:73-89 | the new state is `TsdSpec.AdvanceBanTurn` of the old one |
| TsdMachine.Series.MapUnused | server/veto/machine_tsd.py:91-92 | true exactly when no round has picked the map |
| TsdMachine.Series.AdvanceRoundAfterPick | server/veto/machine_tsd.py:221-233 | the new state is `TsdSpec.AdvanceRound` of the old one |
| TsdMachine.Series.ConfirmTsd | server/veto/machine_tsd.py:96-109 | the round-creation loop yields `TsdSpec.ConfirmTsd`'s series, with the stored type and ruleset unchanged, or its error with the series untouched; keeps the invariant |
| TsdMachine.Series.AssignRoles | server/veto/machine_tsd.py:111-120 | agrees with `TsdSpec.AssignRoles` in place; keeps the invariant |
| TsdMachine.Series.BanObjectiveCombo | server/veto/machine_tsd.py:122-143 | agrees with `TsdSpec.BanObjectiveCombo` in place; keeps the invariant |
| TsdMachine.Series.BanSlayerMap | server/veto/machine_tsd.py:145-163 | agrees with `TsdSpec.BanSlayerMap` in place; keeps the invariant |
| TsdMachine.Series.PickObjectiveCombo | server/veto/machine_tsd.py:165-191 | agrees with `TsdSpec.PickObjectiveCombo` in place; keeps the invariant |
| TsdMachine.Series.PickSlayerMap | server/veto/machine_tsd.py:193-219 | agrees with `TsdSpec.PickSlayerMap` in place; keeps the invariant |
| TsdMachine.Series.UndoLast | server/veto/machine_tsd.py:235-285 | agrees with `TsdSpec.UndoLast` in place; keeps the invariant |
| TsdMachine.Series.UndoBan | server/veto/machine_tsd.py:239-249 | in the ban phase, agrees with `TsdSpec.UndoLast` in place; keeps the invariant |
| TsdMachine.Series.UndoPick | server/veto/machine_tsd.py:251-283 | in the pick window, agrees with `TsdSpec.UndoLast` in place; keeps the invariant |
| TsdMachine.Series.Reset | server/veto/machine_tsd.py:287-299 | from any state, the series becomes a new valid series with the same teams |
| Text.Strip | server/veto/views.py:47 | the result is an infix of the input with only whitespace cut away, and it neither starts nor ends with whitespace |
| Views.AsTeamCode | server/veto/views.py:46-54 | a stripped "A"/"B" is the code itself; otherwise team_a's name gives A, and team_b's name (when not team_a's) gives B; success exactly for "A", "B" or a team name; otherwise the unknown-team guard error |
| Views.AsTeamCodeRoundTrip | server/veto/views.py:46-54 | a team's own name, and its code, resolve back to that team when the names are distinct, trimmed and not "A"/"B" |
| Views.LiteralCodeBeatsName | server/veto/views.py:47-53 | a label equal to "B" resolves to B even when team A is named "B"; surrounding spaces are ignored |
| Views.VetoTeam | server/veto/views.py:92-105 | A exactly when the non-empty stripped label is team_a; B exactly when it is team_b and not team_a |
| Views.VetoTeamAgreesWithAsTeamCode | server/veto/views.py:92-105 | away from "", "A" and "B", the endpoint and `_as_team_code` resolve and refuse the same labels |
| Views.EmptyLabelRefusedByVeto | server/veto/views.py:94-105 | with an empty team name, an empty label is refused by the endpoint but resolved to A by `_as_team_code` |
| Views.VetoRefusesLiteralCodes | server/veto/views.py:94-99 | the endpoint refuses "A" and "B" unless a team is named so, which `_as_team_code` accepts |
| Views.Veto | server/veto/views.py:84-126 | the endpoint as written: success exactly for a known team, map and mode whose step `count + 1` is free; the action is a ban numbered `count + 1` |
| Views.VetoKeepsStepsConsecutive | server/veto/views.py:116-125 | while steps run 1, 2, ..., every accepted veto succeeds and keeps them so |
| Views.VetoStepCollision | server/veto/views.py:116-125 | one remaining action with step 2 makes the next veto reuse step 2, and the insert fails |
| Views.NextStep | server/veto/views.py:116 | the step one past the largest in use is free, and is `count + 1` while steps run 1, 2, ... |
| Views.VetoNextStep | server/veto/views.py:84-126 | the corrected endpoint never collides, succeeds exactly for a known team, map and mode, and agrees with the as-written one while steps are consecutive |
| Views.ValidateMapMode | server/veto/views.py:262-266 | fails, with the source's message, exactly when both a map and a mode are given and the map does not carry the mode |
| Views.RowCombosMembers | server/veto/views.py:293-315 | a map's listed combos are exactly its modes that pass both filters |
| Views.FilteredCombosMembers | server/veto/views.py:292-315 | the unsorted listing holds exactly the (map, mode) pairs of the rows that pass both filters |
| Views.ComboLeTotalPreorder | server/veto/views.py:317 | the `(mode, map)` sort key is a total preorder |
| Sorting.SortBy | server/veto/views.py:317 | the sorted list is a permutation of the input and is ordered by the key |
| Sorting.SortedUnique | server/veto/views.py:317 | when no two distinct elements of the list are equivalent under the order, two sorted permutations of those elements are equal |
| Views.Combos | server/veto/views.py:285-318 | the flat listing is a permutation of the filtered combos, sorted by (mode name, map name) |
| Views.MapModeComboView | server/veto/views.py:285-318 | the nested loops and the sort return exactly `Combos` |
| Views.CombosMatchValidateMapMode | server/veto/views.py:262-266 | with no filter, a (map, mode) pair is listed exactly when `_validate_map_mode` accepts it |
| Views.AddComboKeeps | server/veto/views.py:359-370 | one step of the bucket loop keeps the bucket invariant |
| Views.BucketsOfFor | server/veto/views.py:345-370 | one group per mode that occurs, keys listed once in first-seen order, each group holding its mode's maps in order and its name and flag |
| Views.OrdersTotalPreorder | server/veto/views.py:374-384 | ordering groups by mode name and maps by map name are total preorders |
| Views.Split | server/veto/views.py:376-380 | the groups of the wanted flag, each one from the buckets; every bucket of that flag is there; no id twice |
| Views.GroupsOfMember | server/veto/views.py:376-384 | each listed group is its mode's bucket with sorted maps, and it sits in the objective list exactly when its flag is set |
| Views.GroupedShape | server/veto/views.py:338-386 | objective groups only in `objective`, the rest in `slayer`, each list sorted by mode name, each group's maps sorted and exactly its mode's combos |
| Views.GroupedModesOnce | server/veto/views.py:359-365 | every mode with a passing combo has exactly one group across both lists |
| Views.GroupedHeads | server/veto/views.py:359-365 | every group carries the id, name and flag of one of its mode's combos |
| Views.AddToBucket | server/veto/views.py:359-370 | the dict update for one combo is one step of `AddCombo` |
| Views.FillBuckets | server/veto/views.py:345-370 | the filtering loop yields exactly `BucketsOf` the filtered combos |
| Views.SortBuckets | server/veto/views.py:372-374 | every bucket's maps are sorted by name |
| Views.SplitBuckets | server/veto/views.py:376-380 | the split loop yields exactly `Split` for each flag |
| Views.MapModeGroupedView | server/veto/views.py:338-386 | fill, sort, split and sort return exactly `Grouped` |
| SeedHcs.SeededFlagMatchesFallback | server/veto/management/commands/seed_hcs.py:27-28 | the flag the seed stores agrees with the listings' name fallback |
| SeedHcs.MapsListedMembers | server/veto/management/commands/seed_hcs.py:45-48 | a map is required exactly when some entry lists it |
| SeedHcs.RequiredMaps | server/veto/management/commands/seed_hcs.py:45-48 | the loop collects exactly the maps some entry lists |
| SeedHcs.MapToModes | server/veto/management/commands/seed_hcs.py:56-61 | one key per required map, each holding the modes that list it, in table order |
| SeedHcs.AppendEntry | server/veto/management/commands/seed_hcs.py:59-61 | the inner loop appends the entry's mode to each map it lists, once per listing, and adds no key |
| SeedHcs.ModesOfMembers | server/veto/management/commands/seed_hcs.py:58-61 | a map's modes contain a mode exactly when the table lists the map under that mode |
| SeedHcs.ModesOfInKeyOrder | server/veto/management/commands/seed_hcs.py:58-61 | when no entry repeats a map, a map's modes are the listing modes in table order, each once |
| SeedHcs.OfficialNoRepeats | server/veto/management/commands/seed_hcs.py:6-25 | no official entry lists a map twice |
| SeedHcs.OfficialInversion | server/veto/management/commands/seed_hcs.py:6-25 | Aquarius carries Slayer, Capture the Flag and Neutral Bomb; Lattice carries King of the Hill, Oddball and Strongholds |
| SeedHcs.Exclude | server/veto/management/commands/seed_hcs.py:69-71 | keeps exactly the maps and modes named, and drops deleted modes from each kept map |
| SeedHcs.ExcludeLeavesOnlyOfficial | server/veto/management/commands/seed_hcs.py:69-71 | after the sweep the catalog is well formed, only table names remain, and each kept map keeps exactly its surviving modes |

## Left out

- The `transitions` state machine set up in `TSDMachine.__init__` (machine_tsd.py:36-56) is not modelled. No entry point fires its triggers, and its states are not the series states.
- As written, `TSDMachine.__init__` cannot complete: it passes `initial=series.state`, and no `series` is defined there (machine_tsd.py:49), so it raises `NameError`. `TSDMachine` also does not derive from `Machine`, so its `super().__init__` call would fail as well. Every `TSDMachine(pk)`, and every view that builds one, fails before an entry point runs. The model takes each entry point as if construction had succeeded.
- The engine is modelled only for series that are changed through the engine. `SeriesSerializer` lists `state` as a writable field (serializers.py:37-45), so a PUT or PATCH on the series endpoint can store an arbitrary state: `ABORTED`, a pick window with no rounds, or SERIES_SETUP partway through the ban phase. Such a series breaks `TsdSpec.Valid`, and the engine members do not cover it. For example, after a move back to SERIES_SETUP, `confirm_tsd` keeps the old bans but restarts at step 0, so the next ban collides with the unique `(series, step_index)` constraint.
- Transactions, `select_for_update` locking and concurrent callers are not modelled. Each entry point is one atomic step on one series.
- The ORM is not modelled. A series with its rounds and bans is one value, and the catalog is two maps. The listings take the query result `rows` as a parameter. `RowsOf` says when the rows list a catalog.
- `SeriesRound.DoesNotExist` at machine_tsd.py:253-256 is not modelled. Under the invariant the current round always exists.
- Ids are modelled as natural numbers, 0 included. The source tests `pick_map_id` and `objective_mode_id` for truth (models.py:83, models.py:110-113, machine_tsd.py:257), so an id of 0 would read as absent there. Database keys start at 1, and the model assumes no id is 0 without stating it as a type.
- Lookups of an unknown mode or map id raise `DoesNotExist`, which the model returns as `NotFound`. The HTTP views that turn it into a response are not modelled.
- HTTP shaping is not modelled: status codes, serializers, `get_object_or_404`, and the views that only forward to the engine.
- Series creation with default team names (views.py:61-75) is not modelled.
- `slugify` and the `slug` field of the listings are not modelled, because `slugify` is foreign code.
- Timestamps and the ordering by `created_at` are not modelled.
- Display labels of the enumerations are not modelled.
- Deletes refused by `on_delete=PROTECT` (`ProtectedError`) are not modelled in `SeedHcs.Exclude`.
- The seed command's database writes (`update_or_create`, `get_or_create`, `m.modes.set`) and its output line are not modelled. The model covers the table, the flag, the two loops that build `required_maps` and `map_to_modes`, and the final sweep.
- `Text.Strip` and `Text.Lower`: whitespace and case are ASCII only. Python's Unicode whitespace and case mapping are not modelled.
- Views.AsTeamCode: a missing label (`None`) is modelled as the empty string, which Python treats alike here.
- Views.MapModeComboView: `list.sort` sorts in place, and the model sorts a sequence value with `Sorting.SortBy` instead.
- Sorting.SortBy: the stability of Python's sort is not stated. The contract gives only a sorted permutation. `Sorting.SortedUnique` shows that the sorted permutation is determined when no two distinct elements of the list are equivalent under the key. The model does not prove that this holds for the listings: two combos with the same mode and map names but different ids are equivalent under the listing order.
- Views.SortBuckets: sorting iterates the first-seen key order rather than `bucket.values()`. The result is the same map.

## Findings

| source | as written | input that shows it | evidently intended | confidence | as-written member | corrected member |
|---|---|---|---|---|---|---|
| server/veto/machine_tsd.py:103-104 | the series type and ruleset are set on the row but not saved, since `_start_ban_phase` saves only `state`, `ban_index` and `turn` (machine_tsd.py:71) | any successful `confirm_tsd(series_type="Bo3")` on a new series: the stored `series_type` and `ruleset` stay "" although three Bo3 rounds are created | save both fields with the rest | high, not executed | TsdSpec.ConfirmTsdLeavesTypeUnset | TsdSpec.ConfirmTsdSavedNamesTemplate |
| server/veto/views.py:116 | a new action is numbered `count + 1`, while `(series, step)` must be unique (models.py:132-134) | a series whose only action has step 2 (step 1 deleted through the actions API): the next veto takes step 2 again and the insert raises an integrity error | number the new action one past the largest step in use | medium, not executed | Views.VetoStepCollision | Views.VetoNextStep |
