/**
 * `material_rename_phase` and `material_rename_homogenization`: on a copy
 * of the configuration, the phase of selected constituents (or the
 * homogenization of selected materials) is replaced by its image under a
 * mapping; names the mapping does not know are left as they are.
 */
module MaterialRename {
  import opened Wrappers
  import opened Materials

  /** Material i is selected by the optional index list `ID`. */
  predicate Selected(i: nat, ids: Option<seq<int>>)
  {
    ids.None? || i in ids.value
  }

  /**
   * Whether constituent j takes part. As written (`byIndex` false) the
   * constituent dictionary itself is looked up in the list of indices,
   * which never contains it, so any list excludes every constituent; by
   * index, constituent j takes part when j is listed.
   */
  predicate Picked(j: nat, constituent: Option<seq<int>>, byIndex: bool)
  {
    constituent.None? || (byIndex && j in constituent.value)
  }

  /**
   * `e[key] = mapping[e[key]]` inside `try ... except KeyError: continue`:
   * nothing changes when `e` lacks the key or the mapping lacks its value.
   */
  function Rename(e: Entry, key: string, mapping: map<Value, Value>): (r: Entry)
    ensures r.Keys == e.Keys
    ensures forall k :: k in e && k != key ==> r[k] == e[k]
    ensures key in e ==> r[key] == if e[key] in mapping then mapping[e[key]] else e[key]
  {
    if key in e && e[key] in mapping then e[key := mapping[e[key]]] else e
  }

  /** The constituents of one selected material after the phase renaming. */
  function RenameConstituents(cs: seq<Entry>, mapping: map<Value, Value>, constituent: Option<seq<int>>,
                              byIndex: bool): (r: seq<Entry>)
    ensures |r| == |cs|
  {
    seq(|cs|, j requires 0 <= j < |cs| =>
      if Picked(j, constituent, byIndex) then Rename(cs[j], "phase", mapping) else cs[j])
  }

  /** Some selected material has no constituent list, so `m['constituents']` raises. */
  predicate LacksConstituents(ms: seq<Material>, ids: Option<seq<int>>)
  {
    exists i :: 0 <= i < |ms| && Selected(i, ids) && ms[i].constituents.None?
  }

  /** The configuration `material_rename_phase` returns. */
  function PhaseRenamed(cfg: Config, mapping: map<Value, Value>, ids: Option<seq<int>>,
                        constituent: Option<seq<int>>, byIndex: bool): (r: Result<Config, ConfigError>)
    ensures r.Err? ==> r.error == MissingKey("material") || r.error == MissingKey("constituents")
    ensures r.Ok? ==> cfg.material.Some? && r.value.material.Some?
    ensures r.Ok? ==> |r.value.material.value| == |cfg.material.value|
    ensures r.Ok? ==> r.value.phase == cfg.phase && r.value.homogenization == cfg.homogenization
  {
    if cfg.material.None? then Err(MissingKey("material"))
    else
      var ms := cfg.material.value;
      if LacksConstituents(ms, ids) then Err(MissingKey("constituents"))
      else Ok(cfg.(material := Some(seq(|ms|, i requires 0 <= i < |ms| =>
        if Selected(i, ids)
        then ms[i].(constituents := Some(RenameConstituents(ms[i].constituents.value, mapping, constituent, byIndex)))
        else ms[i]))))
  }

  /** The configuration `material_rename_homogenization` returns. */
  function HomogenizationRenamed(cfg: Config, mapping: map<Value, Value>, ids: Option<seq<int>>): (r: Result<Config, ConfigError>)
    ensures r.Err? <==> cfg.material.None?
    ensures r.Err? ==> r.error == MissingKey("material")
    ensures r.Ok? ==> r.value.material.Some? && |r.value.material.value| == |cfg.material.value|
    ensures r.Ok? ==> r.value.phase == cfg.phase && r.value.homogenization == cfg.homogenization
  {
    if cfg.material.None? then Err(MissingKey("material"))
    else
      var ms := cfg.material.value;
      Ok(cfg.(material := Some(seq(|ms|, i requires 0 <= i < |ms| =>
        if Selected(i, ids) then ms[i].(fields := Rename(ms[i].fields, "homogenization", mapping)) else ms[i]))))
  }

  /** Lines 247-256, with the constituent filter as written. */
  method MaterialRenamePhase(cfg: Config, mapping: map<Value, Value>, ids: Option<seq<int>>,
                             constituent: Option<seq<int>>) returns (r: Result<Config, ConfigError>)
    ensures r == PhaseRenamed(cfg, mapping, ids, constituent, false)
  {
    if cfg.material.None? {
      return Err(MissingKey("material"));
    }
    var ms := cfg.material.value;
    var dup := ms;
    for i := 0 to |dup|
      invariant |dup| == |ms|
      invariant !LacksConstituents(ms[..i], ids)
      invariant forall u :: 0 <= u < |ms| ==>
        dup[u] == (if u < i && Selected(u, ids)
                   then ms[u].(constituents := Some(RenameConstituents(ms[u].constituents.value, mapping, constituent, false)))
                   else ms[u])
    {
      if ids.Some? && i !in ids.value {
        assert ms[..i + 1][i] == ms[i];
        continue;
      }
      if dup[i].constituents.None? {
        assert Selected(i, ids) && ms[i].constituents.None?;
        return Err(MissingKey("constituents"));
      }
      var cs := dup[i].constituents.value;
      for j := 0 to |cs|
        invariant |cs| == |ms[i].constituents.value|
        invariant forall v :: 0 <= v < |cs| ==>
          cs[v] == (if v < j && Picked(v, constituent, false) then Rename(ms[i].constituents.value[v], "phase", mapping)
                    else ms[i].constituents.value[v])
      {
        if constituent.Some? {
          continue;
        }
        cs := cs[j := Rename(cs[j], "phase", mapping)];
      }
      assert cs == RenameConstituents(ms[i].constituents.value, mapping, constituent, false);
      dup := dup[i := dup[i].(constituents := Some(cs))];
      assert forall u :: 0 <= u < i ==> ms[..i + 1][u] == ms[..i][u];
      assert ms[..i + 1][i] == ms[i];
    }
    assert ms[..|ms|] == ms;
    assert dup == PhaseRenamed(cfg, mapping, ids, constituent, false).value.material.value;
    r := Ok(cfg.(material := Some(dup)));
  }

  /** Lines 276-283. */
  method MaterialRenameHomogenization(cfg: Config, mapping: map<Value, Value>, ids: Option<seq<int>>)
    returns (r: Result<Config, ConfigError>)
    ensures r == HomogenizationRenamed(cfg, mapping, ids)
  {
    if cfg.material.None? {
      return Err(MissingKey("material"));
    }
    var ms := cfg.material.value;
    var dup := ms;
    for i := 0 to |dup|
      invariant |dup| == |ms|
      invariant forall u :: 0 <= u < |ms| ==>
        dup[u] == (if u < i && Selected(u, ids) then ms[u].(fields := Rename(ms[u].fields, "homogenization", mapping))
                   else ms[u])
    {
      if ids.Some? && i !in ids.value {
        continue;
      }
      dup := dup[i := dup[i].(fields := Rename(dup[i].fields, "homogenization", mapping))];
    }
    assert dup == HomogenizationRenamed(cfg, mapping, ids).value.material.value;
    r := Ok(cfg.(material := Some(dup)));
  }

  /**
   * Renaming phases fails only for a missing 'material' key or a selected
   * material without constituents; otherwise it keeps every material,
   * constituent and key, and changes nothing but the phase of selected,
   * picked constituents whose phase the mapping knows.
   */
  lemma PhaseRenamedFrame(cfg: Config, mapping: map<Value, Value>, ids: Option<seq<int>>,
                          constituent: Option<seq<int>>, byIndex: bool)
    ensures PhaseRenamed(cfg, mapping, ids, constituent, byIndex).Err? <==>
      cfg.material.None? || LacksConstituents(cfg.material.value, ids)
    ensures PhaseRenamed(cfg, mapping, ids, constituent, byIndex).Ok? ==>
      var r := PhaseRenamed(cfg, mapping, ids, constituent, byIndex).value;
      var ms := cfg.material.value;
      && r.phase == cfg.phase && r.homogenization == cfg.homogenization
      && r.material.Some? && |r.material.value| == |ms|
      && forall i :: 0 <= i < |ms| ==>
           && r.material.value[i].fields == ms[i].fields
           && r.material.value[i].constituents.None? == ms[i].constituents.None?
           && (ms[i].constituents.Some? ==>
                 var old_cs := ms[i].constituents.value;
                 var new_cs := r.material.value[i].constituents.value;
                 && |new_cs| == |old_cs|
                 && forall j :: 0 <= j < |old_cs| ==>
                      && new_cs[j].Keys == old_cs[j].Keys
                      && (forall k :: k in old_cs[j] && k != "phase" ==> new_cs[j][k] == old_cs[j][k])
                      && ("phase" in old_cs[j] ==>
                            new_cs[j]["phase"] ==
                              if Selected(i, ids) && Picked(j, constituent, byIndex) && old_cs[j]["phase"] in mapping
                              then mapping[old_cs[j]["phase"]] else old_cs[j]["phase"]))
  {
  }

  /**
   * Renaming homogenizations fails only for a missing 'material' key and
   * otherwise changes nothing but the homogenization of selected
   * materials whose homogenization the mapping knows.
   */
  lemma HomogenizationRenamedFrame(cfg: Config, mapping: map<Value, Value>, ids: Option<seq<int>>)
    ensures HomogenizationRenamed(cfg, mapping, ids).Err? <==> cfg.material.None?
    ensures HomogenizationRenamed(cfg, mapping, ids).Ok? ==>
      var r := HomogenizationRenamed(cfg, mapping, ids).value;
      var ms := cfg.material.value;
      && r.phase == cfg.phase && r.homogenization == cfg.homogenization
      && r.material.Some? && |r.material.value| == |ms|
      && forall i :: 0 <= i < |ms| ==>
           && r.material.value[i].constituents == ms[i].constituents
           && r.material.value[i].fields.Keys == ms[i].fields.Keys
           && (forall k :: k in ms[i].fields && k != "homogenization" ==> r.material.value[i].fields[k] == ms[i].fields[k])
           && ("homogenization" in ms[i].fields ==>
                 r.material.value[i].fields["homogenization"] ==
                   if Selected(i, ids) && ms[i].fields["homogenization"] in mapping
                   then mapping[ms[i].fields["homogenization"]] else ms[i].fields["homogenization"])
  {
  }

  /** As written, any list of constituent indices leaves every phase unchanged. */
  lemma ConstituentListIgnored(cfg: Config, mapping: map<Value, Value>, ids: Option<seq<int>>, list: seq<int>)
    requires PhaseRenamed(cfg, mapping, ids, Some(list), false).Ok?
    ensures PhaseRenamed(cfg, mapping, ids, Some(list), false) == Ok(cfg)
  {
    var ms := cfg.material.value;
    var r := PhaseRenamed(cfg, mapping, ids, Some(list), false).value.material.value;
    forall i | 0 <= i < |ms|
      ensures r[i] == ms[i]
    {
      if Selected(i, ids) {
        var cs := ms[i].constituents.value;
        assert RenameConstituents(cs, mapping, Some(list), false) == cs;
      }
    }
    assert r == ms;
  }

  /** With indices, exactly the listed constituents of selected materials are renamed. */
  lemma ConstituentListByIndex(cfg: Config, mapping: map<Value, Value>, ids: Option<seq<int>>, list: seq<int>,
                               i: nat, j: nat)
    requires PhaseRenamed(cfg, mapping, ids, Some(list), true).Ok?
    requires i < |cfg.material.value| && cfg.material.value[i].constituents.Some?
    requires j < |cfg.material.value[i].constituents.value|
    ensures
      var c := cfg.material.value[i].constituents.value[j];
      var d := PhaseRenamed(cfg, mapping, ids, Some(list), true).value.material.value[i].constituents.value[j];
      d == if Selected(i, ids) && j in list then Rename(c, "phase", mapping) else c
  {
  }

  /**
   * One material with one constituent of phase "A", mapping A to B and the
   * constituent list [0]: as written nothing is renamed, by index the
   * constituent's phase becomes "B".
   */
  lemma ConstituentFilterCounterexample()
    ensures
      var cfg := Config(Some([Material(map["homogenization" := Str("SX")], Some([map["phase" := Str("A")]]))]),
                        Some(map[]), Some(map[]));
      var mapping := map[Str("A") := Str("B")];
      && PhaseRenamed(cfg, mapping, None, Some([0]), false) == Ok(cfg)
      && PhaseRenamed(cfg, mapping, None, Some([0]), true).value.material.value[0].constituents.value[0]["phase"] == Str("B")
  {
    var cfg := Config(Some([Material(map["homogenization" := Str("SX")], Some([map["phase" := Str("A")]]))]),
                      Some(map[]), Some(map[]));
    var mapping := map[Str("A") := Str("B")];
    assert !LacksConstituents(cfg.material.value, None);
    ConstituentListIgnored(cfg, mapping, None, [0]);
    assert Picked(0, Some([0]), true);
  }
}
