/**
 * The `seed_hcs` management command: the official table of modes and the
 * maps each is played on, the objective flag it gives a mode, the
 * inversion of that table into the modes of each map, and the final sweep
 * that deletes every map and mode the table does not name.
 */
module SeedHcs {
  import opened Wrappers
  import opened Models
  import Views

  /** A mode-to-maps table, as a dict in insertion order: (mode name, map names). */
  type Table = seq<(string, seq<string>)>

  /** `OFFICIAL`: the HCS modes and their maps, in the order the dict lists them. */
  const Official: Table := [
    ("Slayer", ["Aquarius", "Live Fire", "Origin", "Recharge", "Solitude", "Streets"]),
    ("Capture the Flag", ["Aquarius", "Forbidden", "Fortress", "Origin"]),
    ("King of the Hill", ["Live Fire", "Recharge", "Lattice"]),
    ("Oddball", ["Live Fire", "Recharge", "Lattice"]),
    ("Strongholds", ["Live Fire", "Recharge", "Lattice"]),
    ("Neutral Bomb", ["Aquarius"])
  ]

  /** `is_objective_mode`: every mode but Slayer is objective. */
  function IsObjectiveMode(name: string): (r: bool)
    ensures r <==> name != "Slayer"
  {
    name != "Slayer"
  }

  /**
   * The flag the seed stores for a mode is the one the listings would fall
   * back to if the flag were missing.
   */
  lemma SeededFlagMatchesFallback(id: ModeId, name: string)
    ensures Views.IsObjective(Views.ModeRow(id, name, Some(IsObjectiveMode(name))))
      == Views.IsObjective(Views.ModeRow(id, name, None))
  {
  }

  /** Every map some entry of the table lists. */
  function MapsListed(table: Table): set<string> {
    if table == [] then {}
    else MapsListed(table[..|table| - 1]) + Elements(table[|table| - 1].1)
  }

  function Elements(maps: seq<string>): set<string> {
    set j | 0 <= j < |maps| :: maps[j]
  }

  lemma {:induction false} MapsListedMembers(table: Table, m: string)
    ensures m in MapsListed(table) <==> exists e :: 0 <= e < |table| && m in table[e].1
  {
    if table != [] {
      var init := table[..|table| - 1];
      MapsListedMembers(init, m);
      assert forall e :: 0 <= e < |init| ==> init[e] == table[e];
    }
  }

  /** The `required_maps` loop: collect every listed map. */
  method RequiredMaps(table: Table) returns (required: set<string>)
    ensures required == MapsListed(table)
    ensures forall m :: m in required <==> exists e :: 0 <= e < |table| && m in table[e].1
  {
    required := {};
    for i := 0 to |table|
      invariant required == MapsListed(table[..i])
    {
      var (modeName, maps) := table[i];
      for j := 0 to |maps|
        invariant required == MapsListed(table[..i]) + Elements(maps[..j])
      {
        assert Elements(maps[..j + 1]) == Elements(maps[..j]) + {maps[j]} by {
          assert forall x :: x in maps[..j + 1] <==> x in maps[..j] || x == maps[j];
        }
        required := required + {maps[j]};
      }
      assert maps[..|maps|] == maps;
      assert table[..i + 1][..i] == table[..i];
    }
    assert table[..|table|] == table;
    forall m ensures m in required <==> exists e :: 0 <= e < |table| && m in table[e].1 {
      MapsListedMembers(table, m);
    }
  }

  /** Mode `k` once for each time `maps` lists map `m`. */
  function EntryModes(k: string, maps: seq<string>, m: string): seq<string> {
    if maps == [] then []
    else EntryModes(k, maps[..|maps| - 1], m) + (if maps[|maps| - 1] == m then [k] else [])
  }

  /** What `map_to_modes[m]` ends up holding: the modes listing `m`, in table order. */
  function ModesOf(table: Table, m: string): seq<string> {
    if table == [] then []
    else
      var (k, maps) := table[|table| - 1];
      ModesOf(table[..|table| - 1], m) + EntryModes(k, maps, m)
  }

  /** The `map_to_modes` loops: start every required map empty, then append each listing mode. */
  method MapToModes(table: Table, required: set<string>) returns (mm: map<string, seq<string>>)
    requires required == MapsListed(table)
    ensures mm.Keys == required
    ensures forall m :: m in mm ==> mm[m] == ModesOf(table, m)
  {
    mm := map m | m in required :: [];
    for i := 0 to |table|
      invariant mm.Keys == required
      invariant forall m :: m in mm ==> mm[m] == ModesOf(table[..i], m)
    {
      var (modeName, maps) := table[i];
      forall j | 0 <= j < |maps| ensures maps[j] in mm {
        MapsListedMembers(table, maps[j]);
      }
      mm := AppendEntry(mm, modeName, maps);
      ModesOfStep(table, i);
    }
    assert table[..|table|] == table;
  }

  /** The inner `map_to_modes` loop: append mode `k` to the list of each map its entry names. */
  method AppendEntry(mm0: map<string, seq<string>>, k: string, maps: seq<string>) returns (mm: map<string, seq<string>>)
    requires forall j :: 0 <= j < |maps| ==> maps[j] in mm0
    ensures mm.Keys == mm0.Keys
    ensures forall m :: m in mm ==> mm[m] == mm0[m] + EntryModes(k, maps, m)
  {
    mm := mm0;
    for j := 0 to |maps|
      invariant mm.Keys == mm0.Keys
      invariant forall m :: m in mm ==> mm[m] == mm0[m] + EntryModes(k, maps[..j], m)
    {
      EntryModesStep(k, maps, j);
      mm := mm[maps[j] := mm[maps[j]] + [k]];
    }
    assert maps[..|maps|] == maps;
  }

  lemma EntryModesStep(k: string, maps: seq<string>, j: nat)
    requires j < |maps|
    ensures forall m :: EntryModes(k, maps[..j + 1], m) == EntryModes(k, maps[..j], m) + (if maps[j] == m then [k] else [])
  {
    assert maps[..j + 1][..j] == maps[..j];
  }

  lemma ModesOfStep(table: Table, i: nat)
    requires i < |table|
    ensures forall m :: ModesOf(table[..i + 1], m) == ModesOf(table[..i], m) + EntryModes(table[i].0, table[i].1, m)
  {
    assert table[..i + 1][..i] == table[..i];
  }

  lemma {:induction false} EntryModesMembers(k: string, maps: seq<string>, m: string, x: string)
    ensures x in EntryModes(k, maps, m) <==> x == k && m in maps
  {
    if maps != [] {
      var init := maps[..|maps| - 1];
      EntryModesMembers(k, init, m, x);
      assert maps == init + [maps[|maps| - 1]];
    }
  }

  /** `map_to_modes[m]` contains mode `k` exactly when the table lists `m` under `k`. */
  lemma {:induction false} ModesOfMembers(table: Table, m: string, k: string)
    ensures k in ModesOf(table, m) <==> exists e :: 0 <= e < |table| && table[e].0 == k && m in table[e].1
  {
    if table != [] {
      var init := table[..|table| - 1];
      ModesOfMembers(init, m, k);
      EntryModesMembers(table[|table| - 1].0, table[|table| - 1].1, m, k);
      assert forall e :: 0 <= e < |init| ==> init[e] == table[e];
    }
  }

  /** The mode names, in table order, whose entry lists map `m`. */
  function KeysListing(table: Table, m: string): seq<string> {
    if table == [] then []
    else KeysListing(table[..|table| - 1], m) + (if m in table[|table| - 1].1 then [table[|table| - 1].0] else [])
  }

  predicate NoRepeats(maps: seq<string>) {
    forall i, j :: 0 <= i < j < |maps| ==> maps[i] != maps[j]
  }

  lemma {:induction false} EntryModesOnce(k: string, maps: seq<string>, m: string)
    requires NoRepeats(maps)
    ensures EntryModes(k, maps, m) == if m in maps then [k] else []
  {
    if maps != [] {
      var init := maps[..|maps| - 1];
      assert NoRepeats(init);
      EntryModesOnce(k, init, m);
      assert maps == init + [maps[|maps| - 1]];
    }
  }

  /**
   * When no entry lists a map twice, each map's modes are the table's mode
   * names in table order, filtered to those that list the map.
   */
  lemma {:induction false} ModesOfInKeyOrder(table: Table, m: string)
    requires forall e :: 0 <= e < |table| ==> NoRepeats(table[e].1)
    ensures ModesOf(table, m) == KeysListing(table, m)
  {
    if table != [] {
      var init := table[..|table| - 1];
      assert forall e :: 0 <= e < |init| ==> init[e] == table[e];
      ModesOfInKeyOrder(init, m);
      EntryModesOnce(table[|table| - 1].0, table[|table| - 1].1, m);
    }
  }

  /** No entry of the official table lists a map twice. */
  lemma OfficialNoRepeats()
    ensures forall e :: 0 <= e < |Official| ==> NoRepeats(Official[e].1)
  {
  }

  /**
   * The official table inverted: Aquarius carries Slayer, Capture the Flag
   * and Neutral Bomb; Lattice carries the three zone modes and no Slayer.
   */
  lemma OfficialInversion()
    ensures ModesOf(Official, "Aquarius") == ["Slayer", "Capture the Flag", "Neutral Bomb"]
    ensures ModesOf(Official, "Lattice") == ["King of the Hill", "Oddball", "Strongholds"]
  {
    OfficialNoRepeats();
    ModesOfInKeyOrder(Official, "Aquarius");
    ModesOfInKeyOrder(Official, "Lattice");
    assert Official[..1][..0] == Official[..0];
    assert Official[..2][..1] == Official[..1];
    assert Official[..3][..2] == Official[..2];
    assert Official[..4][..3] == Official[..3];
    assert Official[..5][..4] == Official[..4];
    assert Official[..6][..5] == Official[..5];
    assert KeysListing(Official[..1], "Aquarius") == ["Slayer"];
    assert KeysListing(Official[..2], "Aquarius") == ["Slayer", "Capture the Flag"];
    assert KeysListing(Official[..3], "Aquarius") == ["Slayer", "Capture the Flag"];
    assert KeysListing(Official[..4], "Aquarius") == ["Slayer", "Capture the Flag"];
    assert KeysListing(Official[..5], "Aquarius") == ["Slayer", "Capture the Flag"];
    assert KeysListing(Official[..6], "Aquarius") == ["Slayer", "Capture the Flag", "Neutral Bomb"];
    assert KeysListing(Official[..1], "Lattice") == [];
    assert KeysListing(Official[..2], "Lattice") == [];
    assert KeysListing(Official[..3], "Lattice") == ["King of the Hill"];
    assert KeysListing(Official[..4], "Lattice") == ["King of the Hill", "Oddball"];
    assert KeysListing(Official[..5], "Lattice") == ["King of the Hill", "Oddball", "Strongholds"];
    assert KeysListing(Official[..6], "Lattice") == ["King of the Hill", "Oddball", "Strongholds"];
    assert Official[..6] == Official;
  }

  /**
   * The sweep at the end of the command: delete every map not named in
   * `required` and every mode not named in `keys`; deleting a mode also drops
   * it from the mode set of each map that kept it.
   */
  function Exclude(c: Catalog, required: set<string>, keys: set<string>): (r: Catalog)
    ensures forall p :: p in r.maps <==> p in c.maps && c.maps[p].name in required
    ensures forall k :: k in r.modes <==> k in c.modes && c.modes[k].name in keys
    ensures forall k :: k in r.modes ==> r.modes[k] == c.modes[k]
    ensures forall p :: p in r.maps ==> (r.maps[p].name == c.maps[p].name
      && r.maps[p].modes == c.maps[p].modes * r.modes.Keys)
  {
    var modes := map k | k in c.modes && c.modes[k].name in keys :: c.modes[k];
    var maps := map p | p in c.maps && c.maps[p].name in required :: c.maps[p].(modes := c.maps[p].modes * modes.Keys);
    Catalog(modes, maps)
  }

  /**
   * After the sweep no map or mode outside the table remains, the catalog
   * stays well formed, and every map keeps exactly those of its modes that
   * the table names.
   */
  lemma ExcludeLeavesOnlyOfficial(c: Catalog, table: Table, k: ModeId, p: MapId)
    requires WellFormed(c)
    ensures var r := Exclude(c, MapsListed(table), set e | 0 <= e < |table| :: table[e].0);
      && WellFormed(r)
      && (p in r.maps ==> exists e :: 0 <= e < |table| && r.maps[p].name in table[e].1)
      && (k in r.modes ==> exists e :: 0 <= e < |table| && r.modes[k].name == table[e].0)
      && (p in r.maps ==> (k in r.maps[p].modes <==> k in c.maps[p].modes && k in r.modes))
  {
    var r := Exclude(c, MapsListed(table), set e | 0 <= e < |table| :: table[e].0);
    if p in r.maps {
      MapsListedMembers(table, r.maps[p].name);
    }
  }
}
