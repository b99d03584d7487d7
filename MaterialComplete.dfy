/**
 * `ConfigMaterial.is_complete`: the three top-level keys exist, there is
 * at least one material, every material names a homogenization, every
 * constituent has an orientation and a phase, every phase defines a
 * lattice, every homogenization its number of constituents, and every
 * name used by a material is defined.
 */
module MaterialComplete {
  import opened Wrappers
  import opened Materials

  /** Phase names used by the constituents of materials 0 .. n-1. */
  function PhaseRefs(ms: seq<Material>, n: nat): set<Value>
    requires n <= |ms|
  {
    set i, j | 0 <= i < n && ms[i].constituents.Some? && 0 <= j < |ms[i].constituents.value|
                 && "phase" in ms[i].constituents.value[j]
      :: ms[i].constituents.value[j]["phase"]
  }

  /** Homogenization names used by materials 0 .. n-1. */
  function HomogenizationRefs(ms: seq<Material>, n: nat): set<Value>
    requires n <= |ms|
  {
    set i | 0 <= i < n && "homogenization" in ms[i].fields :: ms[i].fields["homogenization"]
  }

  /** Constituents have an orientation 'O' and a 'phase'. */
  predicate ConstituentsComplete(cs: seq<Entry>)
  {
    forall j :: 0 <= j < |cs| ==> "O" in cs[j] && "phase" in cs[j]
  }

  /** Every material names a homogenization, and its constituents (if listed) are complete. */
  predicate MaterialsComplete(ms: seq<Material>, n: nat)
    requires n <= |ms|
  {
    forall i :: 0 <= i < n ==>
      "homogenization" in ms[i].fields
      && (ms[i].constituents.Some? ==> ConstituentsComplete(ms[i].constituents.value))
  }

  predicate DefinitionsHave(defs: map<Value, Entry>, key: string)
  {
    forall d :: d in defs ==> key in defs[d]
  }

  /**
   * The declarative meaning of `is_complete`. As the first material names
   * a defined homogenization, a complete configuration defines at least one.
   */
  predicate Complete(cfg: Config)
    ensures Complete(cfg) ==> cfg.homogenization.Some? && |cfg.homogenization.value| > 0
  {
    var ok :=
      && cfg.material.Some? && cfg.phase.Some? && cfg.homogenization.Some?
      && |cfg.material.value| > 0
      && MaterialsComplete(cfg.material.value, |cfg.material.value|)
      && DefinitionsHave(cfg.phase.value, "lattice")
      && DefinitionsHave(cfg.homogenization.value, "N_constituents")
      && PhaseRefs(cfg.material.value, |cfg.material.value|) <= cfg.phase.value.Keys
      && HomogenizationRefs(cfg.material.value, |cfg.material.value|) <= cfg.homogenization.value.Keys;
    assert ok ==> cfg.material.value[0].fields["homogenization"] in cfg.homogenization.value;
    ok
  }

  /** Lines 164-173 for one material: checks its constituents and collects their phases. */
  method CheckConstituents(cs: seq<Entry>) returns (ok: bool, phases: set<Value>)
    ensures ok == ConstituentsComplete(cs)
    ensures phases == set j | 0 <= j < |cs| && "phase" in cs[j] :: cs[j]["phase"]
  {
    ok := true;
    phases := {};
    for j := 0 to |cs|
      invariant ok == forall v :: 0 <= v < j ==> "O" in cs[v] && "phase" in cs[v]
      invariant phases == set v | 0 <= v < j && "phase" in cs[v] :: cs[v]["phase"]
    {
      if "O" !in cs[j] {
        ok := false;
      }
      if "phase" in cs[j] {
        phases := phases + {cs[j]["phase"]};
      } else {
        ok := false;
      }
    }
  }

  /** Lines 175-183: every definition in `defs` has `key`. */
  method CheckDefinitions(defs: map<Value, Entry>, key: string) returns (ok: bool)
    ensures ok == DefinitionsHave(defs, key)
  {
    ok := true;
    var todo := defs.Keys;
    while todo != {}
      invariant todo <= defs.Keys
      invariant ok == forall d :: d in defs && d !in todo ==> key in defs[d]
      decreases todo
    {
      var d :| d in todo;
      if key !in defs[d] {
        ok := false;
      }
      todo := todo - {d};
    }
  }

  lemma PhaseRefsStep(ms: seq<Material>, i: nat)
    requires i < |ms|
    ensures PhaseRefs(ms, i + 1) == PhaseRefs(ms, i) +
      if ms[i].constituents.Some?
      then set j | 0 <= j < |ms[i].constituents.value| && "phase" in ms[i].constituents.value[j]
             :: ms[i].constituents.value[j]["phase"]
      else {}
  {
  }

  lemma SubsetByDifference<T>(a: set<T>, b: set<T>)
    ensures a - b == {} <==> a <= b
  {
    if a - b == {} {
      forall x | x in a
        ensures x in b
      {
        assert x !in a - b;
      }
    }
  }

  /** `is_complete`. */
  method IsComplete(cfg: Config) returns (ok: bool)
    ensures ok == Complete(cfg)
  {
    ok := true;
    ok := ok && cfg.homogenization.Some?;
    ok := ok && cfg.phase.Some?;
    ok := ok && cfg.material.Some?;
    if ok {
      ok := ok && |cfg.material.value| > 0;
    }
    if !ok {
      return;
    }
    var ms := cfg.material.value;
    var homogenizations: set<Value> := {};
    var phases: set<Value> := {};
    for i := 0 to |ms|
      invariant ok == MaterialsComplete(ms, i)
      invariant homogenizations == HomogenizationRefs(ms, i)
      invariant phases == PhaseRefs(ms, i)
    {
      var good := true;
      if "homogenization" in ms[i].fields {
        homogenizations := homogenizations + {ms[i].fields["homogenization"]};
      } else {
        good := false;
      }
      if ms[i].constituents.Some? {
        var complete, used := CheckConstituents(ms[i].constituents.value);
        good := good && complete;
        phases := phases + used;
      }
      PhaseRefsStep(ms, i);
      ok := ok && good;
    }
    SubsetByDifference(phases, cfg.phase.value.Keys);
    SubsetByDifference(homogenizations, cfg.homogenization.value.Keys);
    var lattices := CheckDefinitions(cfg.phase.value, "lattice");
    var counts := CheckDefinitions(cfg.homogenization.value, "N_constituents");
    ok := ok && lattices && counts;
    if phases - cfg.phase.value.Keys != {} {
      ok := false;
    }
    if homogenizations - cfg.homogenization.value.Keys != {} {
      ok := false;
    }
  }

  /** A fresh configuration has no material yet and so is not complete. */
  lemma DefaultIncomplete()
    ensures !Complete(Default)
  {
  }
}
