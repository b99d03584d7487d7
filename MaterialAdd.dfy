/**
 * `ConfigMaterial.material_add`: keyword columns are broadcast to N
 * materials with n constituents each; 'phase', 'O' and 'v' go into every
 * constituent, any other key into the material itself, and the new
 * materials are appended to a copy of the configuration.
 */
module MaterialAdd {
  import opened Wrappers
  import opened Materials

  /**
   * A keyword argument's value as a 2-D table of rows: a scalar is 1 x 1,
   * a list of length L is L x 1 (for 'O' each cell is one quaternion).
   */
  type Table = seq<seq<Value>>

  /** The keyword arguments in call order. */
  type Kwargs = seq<(string, Table)>

  function Cols(a: Table): nat
  {
    if |a| == 0 then 0 else |a[0]|
  }

  predicate Rectangular(a: Table)
  {
    forall r :: 0 <= r < |a| ==> |a[r]| == Cols(a)
  }

  predicate DistinctKeys(s: Kwargs)
  {
    forall t, u :: 0 <= t < u < |s| ==> s[t].0 != s[u].0
  }

  /** Keyword names are distinct, tables are rectangular, and no argument is named 'constituents'. */
  predicate WellFormed(s: Kwargs)
  {
    DistinctKeys(s) && forall t :: 0 <= t < |s| ==> Rectangular(s[t].1) && s[t].0 != "constituents"
  }

  function Max(a: nat, b: nat): nat
  {
    if a >= b then a else b
  }

  /** N: the largest leading dimension over all arguments, and at least 1. */
  function Leading(s: Kwargs): (N: nat)
    ensures N >= 1
    ensures forall t :: 0 <= t < |s| ==> |s[t].1| <= N
    ensures N == 1 || exists t :: 0 <= t < |s| && |s[t].1| == N
  {
    if |s| == 0 then 1 else Max(Leading(s[..|s| - 1]), |s[|s| - 1].1|)
  }

  /** n: the largest second dimension over all arguments, and at least 1. */
  function Trailing(s: Kwargs): (n: nat)
    ensures n >= 1
    ensures forall t :: 0 <= t < |s| ==> Cols(s[t].1) <= n
    ensures n == 1 || exists t :: 0 <= t < |s| && Cols(s[t].1) == n
  {
    if |s| == 0 then 1 else Max(Trailing(s[..|s| - 1]), Cols(s[|s| - 1].1))
  }

  predicate HasKey(s: Kwargs, k: string)
  {
    exists t :: 0 <= t < |s| && s[t].0 == k
  }

  /** Lines 358-359: without a 'v' argument every constituent gets the fraction 1/n. */
  function Shaped(s: Kwargs, n: nat): Kwargs
    requires n >= 1
  {
    if HasKey(s, "v") then s else s + [("v", [[Num(1.0 / n as real)]])]
  }

  /** numpy can broadcast the table to (N, n): each dimension is 1 or the target. */
  predicate Fits(a: Table, N: nat, n: nat)
  {
    (|a| == 1 || |a| == N) && (Cols(a) == 1 || Cols(a) == n)
  }

  /** Entry [i, j] of the table broadcast to (N, n). */
  function Broadcast(a: Table, N: nat, n: nat, i: nat, j: nat): Value
    requires Rectangular(a) && Fits(a, N, n) && i < N && j < n
  {
    a[if |a| == 1 then 0 else i][if Cols(a) == 1 then 0 else j]
  }

  /** Keys stored per constituent rather than per material. */
  predicate ConstituentKey(k: string)
  {
    k == "phase" || k == "O" || k == "v"
  }

  predicate AllFit(s: Kwargs, N: nat, n: nat)
  {
    forall t :: 0 <= t < |s| ==> Rectangular(s[t].1) && Fits(s[t].1, N, n)
  }

  /** The position of the first argument, at `t` or after, that cannot be broadcast. */
  function FirstMisfit(s: Kwargs, N: nat, n: nat, t: nat): (u: Option<nat>)
    requires t <= |s| && AllFit(s[..t], N, n)
    requires forall v :: 0 <= v < |s| ==> Rectangular(s[v].1)
    ensures u.None? <==> AllFit(s, N, n)
    ensures u.Some? ==> t <= u.value < |s| && !Fits(s[u.value].1, N, n) && AllFit(s[..u.value], N, n)
    decreases |s| - t
  {
    if t == |s| then
      assert s[..t] == s;
      None
    else if !Fits(s[t].1, N, n) then Some(t)
    else
      assert forall v :: 0 <= v <= t ==> s[..t + 1][v] == s[v];
      FirstMisfit(s, N, n, t + 1)
  }

  /** Any argument that cannot be broadcast and has only broadcastable ones before it is the first. */
  lemma FirstMisfitAt(s: Kwargs, N: nat, n: nat, t: nat)
    requires forall v :: 0 <= v < |s| ==> Rectangular(s[v].1)
    requires t < |s| && AllFit(s[..t], N, n) && !Fits(s[t].1, N, n)
    ensures FirstMisfit(s, N, n, 0) == Some(t)
  {
    assert AllFit(s[..0], N, n);
  }

  /** N materials, each with n empty constituents. */
  predicate WellShaped(mats: seq<Material>, N: nat, n: nat)
  {
    |mats| == N && forall i :: 0 <= i < N ==> mats[i].constituents.Some? && |mats[i].constituents.value| == n
  }

  /** Line 356: `[{'constituents':[{} for _ in range(n)]} for _ in range(N)]`. */
  function Blank(N: nat, n: nat): (mats: seq<Material>)
    ensures WellShaped(mats, N, n)
  {
    seq(N, i => Material(map[], Some(seq(n, j => map[]))))
  }

  /** Lines 363-369 for one key and material i. */
  function PutOne(m: Material, k: string, a: Table, N: nat, n: nat, i: nat): (r: Material)
    requires Rectangular(a) && Fits(a, N, n) && i < N && n >= 1
    requires m.constituents.Some? && |m.constituents.value| == n
    ensures r.constituents.Some? && |r.constituents.value| == n
  {
    if ConstituentKey(k) then
      m.(constituents := Some(seq(n, j requires 0 <= j < n => m.constituents.value[j][k := Broadcast(a, N, n, i, j)])))
    else
      m.(fields := m.fields[k := Broadcast(a, N, n, i, 0)])
  }

  function Put(mats: seq<Material>, k: string, a: Table, N: nat, n: nat): (r: seq<Material>)
    requires Rectangular(a) && Fits(a, N, n) && n >= 1
    requires WellShaped(mats, N, n)
    ensures WellShaped(r, N, n)
  {
    seq(N, i requires 0 <= i < N => PutOne(mats[i], k, a, N, n, i))
  }

  /** The new materials after the keys of `s` have been written in order. */
  function Fill(s: Kwargs, N: nat, n: nat): (mats: seq<Material>)
    requires n >= 1 && AllFit(s, N, n)
    ensures WellShaped(mats, N, n)
  {
    if |s| == 0 then Blank(N, n)
    else Put(Fill(s[..|s| - 1], N, n), s[|s| - 1].0, s[|s| - 1].1, N, n)
  }

  /** Lines 366-367: key `k` written into every constituent of material i. */
  method PutConstituents(cs: seq<Entry>, k: string, a: Table, N: nat, n: nat, i: nat) returns (r: seq<Entry>)
    requires Rectangular(a) && Fits(a, N, n) && i < N && |cs| == n
    ensures r == seq(n, j requires 0 <= j < n => cs[j][k := Broadcast(a, N, n, i, j)])
  {
    r := cs;
    for j := 0 to n
      invariant |r| == n
      invariant forall v :: 0 <= v < n ==> r[v] == (if v < j then cs[v][k := Broadcast(a, N, n, i, v)] else cs[v])
    {
      r := r[j := r[j][k := Broadcast(a, N, n, i, j)]];
    }
  }

  /** Lines 364-369: key `k` written into each of the N materials. */
  method PutKey(mats: seq<Material>, k: string, a: Table, N: nat, n: nat) returns (r: seq<Material>)
    requires Rectangular(a) && Fits(a, N, n) && n >= 1
    requires WellShaped(mats, N, n)
    ensures r == Put(mats, k, a, N, n)
  {
    r := mats;
    for i := 0 to N
      invariant |r| == N
      invariant forall u :: 0 <= u < N ==> r[u] == (if u < i then PutOne(mats[u], k, a, N, n, u) else mats[u])
    {
      if ConstituentKey(k) {
        var cs := PutConstituents(r[i].constituents.value, k, a, N, n, i);
        r := r[i := r[i].(constituents := Some(cs))];
      } else {
        r := r[i := r[i].(fields := r[i].fields[k := Broadcast(a, N, n, i, 0)])];
      }
    }
  }

  /** Lines 350-354: N and n, the largest first and second dimensions. */
  method Dimensions(kwargs: Kwargs) returns (N: nat, n: nat)
    ensures N == Leading(kwargs) && n == Trailing(kwargs)
  {
    N, n := 1, 1;
    for t := 0 to |kwargs|
      invariant N == Leading(kwargs[..t]) && n == Trailing(kwargs[..t])
    {
      assert kwargs[..t + 1][..t] == kwargs[..t];
      N := Max(N, |kwargs[t].1|);
      n := Max(n, Cols(kwargs[t].1));
    }
    assert kwargs[..|kwargs|] == kwargs;
  }

  /** The new materials, or the first key numpy refuses to broadcast. */
  function NewMaterials(s: Kwargs, N: nat, n: nat): Result<seq<Material>, ConfigError>
    requires n >= 1 && forall t :: 0 <= t < |s| ==> Rectangular(s[t].1)
  {
    assert AllFit(s[..0], N, n);
    match FirstMisfit(s, N, n, 0)
    case Some(t) => Err(Unbroadcastable(s[t].0))
    case None => Ok(Fill(s, N, n))
  }

  /** Lines 356-369: the loop over the shaped arguments. */
  method Build(s: Kwargs, N: nat, n: nat) returns (r: Result<seq<Material>, ConfigError>)
    requires n >= 1 && forall t :: 0 <= t < |s| ==> Rectangular(s[t].1)
    ensures r == NewMaterials(s, N, n)
  {
    var mat := Blank(N, n);
    for t := 0 to |s|
      invariant AllFit(s[..t], N, n)
      invariant mat == Fill(s[..t], N, n)
    {
      var k, a := s[t].0, s[t].1;
      if !Fits(a, N, n) {
        FirstMisfitAt(s, N, n, t);
        return Err(Unbroadcastable(k));
      }
      assert s[..t + 1][..t] == s[..t];
      mat := PutKey(mat, k, a, N, n);
    }
    assert s[..|s|] == s;
    r := Ok(mat);
  }

  /** The configuration `material_add` returns. */
  function Added(cfg: Config, kwargs: Kwargs): (r: Result<Config, ConfigError>)
    requires WellFormed(kwargs)
    ensures r.Err? ==> r.error.Unbroadcastable?
    ensures r.Ok? ==> r.value.phase == cfg.phase && r.value.homogenization == cfg.homogenization
    ensures r.Ok? ==> r.value.material.Some?
  {
    var n := Trailing(kwargs);
    match NewMaterials(Shaped(kwargs, n), Leading(kwargs), n)
    case Err(e) => Err(e)
    case Ok(mat) => Ok(cfg.(material := Some(if cfg.material.Some? then cfg.material.value + mat else mat)))
  }

  /** `material_add` on a copy of `cfg`. */
  method MaterialAddTo(cfg: Config, kwargs: Kwargs) returns (r: Result<Config, ConfigError>)
    requires WellFormed(kwargs)
    ensures r == Added(cfg, kwargs)
  {
    var N, n := Dimensions(kwargs);
    var shaped := kwargs;
    if !HasKey(kwargs, "v") {
      shaped := shaped + [("v", [[Num(1.0 / n as real)]])];
    }
    assert shaped == Shaped(kwargs, n);
    var mat := Build(shaped, N, n);
    if mat.Err? {
      return Err(mat.error);
    }
    if cfg.material.Some? {
      r := Ok(cfg.(material := Some(cfg.material.value + mat.value)));
    } else {
      r := Ok(cfg.(material := Some(mat.value)));
    }
  }

  /** The argument names stored per constituent (`constituent`) or per material (not `constituent`). */
  function KeySet(s: Kwargs, constituent: bool): set<string>
  {
    set t | 0 <= t < |s| && ConstituentKey(s[t].0) == constituent :: s[t].0
  }

  /** After `Fill`, material i holds exactly the material-level keys, each from column 0. */
  lemma {:induction false} FillFields(s: Kwargs, N: nat, n: nat, i: nat)
    requires n >= 1 && AllFit(s, N, n) && DistinctKeys(s) && i < N
    ensures Fill(s, N, n)[i].fields.Keys == KeySet(s, false)
    ensures forall t :: 0 <= t < |s| && !ConstituentKey(s[t].0) ==>
      Fill(s, N, n)[i].fields[s[t].0] == Broadcast(s[t].1, N, n, i, 0)
  {
    if |s| > 0 {
      var p := s[..|s| - 1];
      assert forall t :: 0 <= t < |p| ==> p[t] == s[t];
      FillFields(p, N, n, i);
      assert KeySet(s, false) == KeySet(p, false) + (if ConstituentKey(s[|s| - 1].0) then {} else {s[|s| - 1].0});
    }
  }

  /** After `Fill`, constituent j of material i holds exactly the constituent keys, each from column j. */
  lemma {:induction false} FillConstituent(s: Kwargs, N: nat, n: nat, i: nat, j: nat)
    requires n >= 1 && AllFit(s, N, n) && DistinctKeys(s) && i < N && j < n
    ensures Fill(s, N, n)[i].constituents.value[j].Keys == KeySet(s, true)
    ensures forall t :: 0 <= t < |s| && ConstituentKey(s[t].0) ==>
      Fill(s, N, n)[i].constituents.value[j][s[t].0] == Broadcast(s[t].1, N, n, i, j)
  {
    if |s| > 0 {
      var p := s[..|s| - 1];
      assert forall t :: 0 <= t < |p| ==> p[t] == s[t];
      FillConstituent(p, N, n, i, j);
      assert KeySet(s, true) == KeySet(p, true) + (if ConstituentKey(s[|s| - 1].0) then {s[|s| - 1].0} else {});
    }
  }

  /** The 'v' argument added by default always broadcasts, and keeps the names distinct. */
  lemma ShapedFacts(kwargs: Kwargs, N: nat, n: nat)
    requires WellFormed(kwargs) && n >= 1
    ensures forall t :: 0 <= t < |kwargs| ==> Shaped(kwargs, n)[t] == kwargs[t]
    ensures DistinctKeys(Shaped(kwargs, n))
    ensures forall t :: 0 <= t < |Shaped(kwargs, n)| ==> Rectangular(Shaped(kwargs, n)[t].1)
    ensures AllFit(Shaped(kwargs, n), N, n) <==> forall t :: 0 <= t < |kwargs| ==> Fits(kwargs[t].1, N, n)
    ensures KeySet(Shaped(kwargs, n), false) == KeySet(kwargs, false)
    ensures KeySet(Shaped(kwargs, n), true) == KeySet(kwargs, true) + {"v"}
  {
    var s := Shaped(kwargs, n);
    if HasKey(kwargs, "v") {
      var t :| 0 <= t < |kwargs| && kwargs[t].0 == "v";
      assert "v" in KeySet(kwargs, true);
    } else {
      assert s == kwargs + [("v", [[Num(1.0 / n as real)]])];
      forall c: bool
        ensures KeySet(s, c) == KeySet(kwargs, c) + (if c then {"v"} else {})
      {
        forall k | k in KeySet(s, c)
          ensures k in KeySet(kwargs, c) + (if c then {"v"} else {})
        {
          var t :| 0 <= t < |s| && ConstituentKey(s[t].0) == c && s[t].0 == k;
          if t < |kwargs| {
            assert kwargs[t] == s[t];
          }
        }
        forall k | k in KeySet(kwargs, c)
          ensures k in KeySet(s, c)
        {
          var t :| 0 <= t < |kwargs| && ConstituentKey(kwargs[t].0) == c && kwargs[t].0 == k;
          assert s[t] == kwargs[t];
        }
        if c {
          assert s[|kwargs|].0 == "v";
        }
      }
    }
  }

  /**
   * `material_add` fails exactly when some argument cannot be broadcast to
   * (N, n); otherwise the old materials are kept as a prefix, exactly N
   * new ones follow, each with exactly n constituents, and the phase and
   * homogenization definitions are untouched.
   */
  lemma AddedShape(cfg: Config, kwargs: Kwargs)
    requires WellFormed(kwargs)
    ensures Added(cfg, kwargs).Err? <==>
      exists t :: 0 <= t < |kwargs| && !Fits(kwargs[t].1, Leading(kwargs), Trailing(kwargs))
    ensures Added(cfg, kwargs).Ok? ==>
      var before := if cfg.material.Some? then cfg.material.value else [];
      var r := Added(cfg, kwargs).value;
      && r.phase == cfg.phase && r.homogenization == cfg.homogenization
      && r.material.Some?
      && |r.material.value| == |before| + Leading(kwargs)
      && r.material.value[..|before|] == before
      && forall i :: |before| <= i < |r.material.value| ==>
           r.material.value[i].constituents.Some?
           && |r.material.value[i].constituents.value| == Trailing(kwargs)
  {
    var N, n := Leading(kwargs), Trailing(kwargs);
    ShapedFacts(kwargs, N, n);
    var s := Shaped(kwargs, n);
    assert AllFit(s[..0], N, n);
    if Added(cfg, kwargs).Ok? {
      var before := if cfg.material.Some? then cfg.material.value else [];
      var mat := Fill(s, N, n);
      assert Added(cfg, kwargs).value.material.value == before + mat;
    }
  }

  /**
   * New material q (row i of N) holds every non-constituent argument from
   * row i, column 0; its constituent j (of n) holds 'phase', 'O' and 'v'
   * from [i, j], and 1/n as 'v' when no 'v' was given; nothing else is stored.
   */
  predicate Entries(q: Material, kwargs: Kwargs, N: nat, n: nat, i: nat, j: nat)
    requires i < N && j < n
    requires forall t :: 0 <= t < |kwargs| ==> Rectangular(kwargs[t].1) && Fits(kwargs[t].1, N, n)
  {
    && q.fields.Keys == KeySet(kwargs, false)
    && q.constituents.Some? && j < |q.constituents.value|
    && q.constituents.value[j].Keys == KeySet(kwargs, true) + {"v"}
    && (forall t :: 0 <= t < |kwargs| && !ConstituentKey(kwargs[t].0) ==>
          kwargs[t].0 in q.fields && q.fields[kwargs[t].0] == Broadcast(kwargs[t].1, N, n, i, 0))
    && (forall t :: 0 <= t < |kwargs| && ConstituentKey(kwargs[t].0) ==>
          kwargs[t].0 in q.constituents.value[j] &&
          q.constituents.value[j][kwargs[t].0] == Broadcast(kwargs[t].1, N, n, i, j))
    && (!HasKey(kwargs, "v") ==> q.constituents.value[j]["v"] == Num(1.0 / n as real))
  }

  /** Material i of `Fill` over the shaped arguments holds what `Entries` describes. */
  lemma FillEntries(kwargs: Kwargs, N: nat, n: nat, i: nat, j: nat)
    requires WellFormed(kwargs) && n >= 1 && i < N && j < n
    requires AllFit(Shaped(kwargs, n), N, n)
    ensures forall t :: 0 <= t < |kwargs| ==> Fits(kwargs[t].1, N, n)
    ensures Entries(Fill(Shaped(kwargs, n), N, n)[i], kwargs, N, n, i, j)
  {
    ShapedFacts(kwargs, N, n);
    var s := Shaped(kwargs, n);
    FillFields(s, N, n, i);
    FillConstituent(s, N, n, i, j);
    if !HasKey(kwargs, "v") {
      assert s[|kwargs|] == ("v", [[Num(1.0 / n as real)]]);
    }
  }

  lemma ShapedRectangular(kwargs: Kwargs, n: nat)
    requires WellFormed(kwargs) && n >= 1
    ensures forall t :: 0 <= t < |Shaped(kwargs, n)| ==> Rectangular(Shaped(kwargs, n)[t].1)
  {
    var s := Shaped(kwargs, n);
    forall t | 0 <= t < |s|
      ensures Rectangular(s[t].1)
    {
      if t < |kwargs| {
        assert s[t] == kwargs[t];
      }
    }
  }

  /** A successful `material_add` appends `Fill` over the shaped arguments. */
  lemma AddedFill(cfg: Config, kwargs: Kwargs)
    requires WellFormed(kwargs)
    requires Added(cfg, kwargs).Ok?
    ensures Trailing(kwargs) >= 1 && AllFit(Shaped(kwargs, Trailing(kwargs)), Leading(kwargs), Trailing(kwargs))
    ensures Added(cfg, kwargs).value.material.Some?
    ensures Added(cfg, kwargs).value.material.value ==
      (if cfg.material.Some? then cfg.material.value else []) +
      Fill(Shaped(kwargs, Trailing(kwargs)), Leading(kwargs), Trailing(kwargs))
  {
    var N, n := Leading(kwargs), Trailing(kwargs);
    var s := Shaped(kwargs, n);
    ShapedRectangular(kwargs, n);
    assert AllFit(s[..0], N, n);
    var r := NewMaterials(s, N, n);
    assert r.Ok?;
    assert FirstMisfit(s, N, n, 0).None?;
    assert r.value == Fill(s, N, n);
    var before := if cfg.material.Some? then cfg.material.value else [];
    assert Added(cfg, kwargs).value.material.value == before + r.value;
  }

  /** Each new material of `material_add` holds exactly the entries its row and column select. */
  lemma AddedEntries(cfg: Config, kwargs: Kwargs, i: nat, j: nat)
    requires WellFormed(kwargs)
    requires Added(cfg, kwargs).Ok?
    requires i < Leading(kwargs) && j < Trailing(kwargs)
    ensures forall t :: 0 <= t < |kwargs| ==> Fits(kwargs[t].1, Leading(kwargs), Trailing(kwargs))
    ensures
      var before := if cfg.material.Some? then cfg.material.value else [];
      var m := Added(cfg, kwargs).value.material.value;
      && |before| + i < |m|
      && Entries(m[|before| + i], kwargs, Leading(kwargs), Trailing(kwargs), i, j)
  {
    var N, n := Leading(kwargs), Trailing(kwargs);
    AddedFill(cfg, kwargs);
    FillEntries(kwargs, N, n, i, j);
    var before := if cfg.material.Some? then cfg.material.value else [];
    var mat := Fill(Shaped(kwargs, n), N, n);
    var m := Added(cfg, kwargs).value.material.value;
    assert m == before + mat;
    assert |mat| == N;
    var q := m[|before| + i];
    assert q == mat[i];
    assert Entries(q, kwargs, N, n, i, j);
  }
}
