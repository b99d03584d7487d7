/**
 * `ConfigMaterial.from_table`: the selected table columns are stacked
 * row by row, only the first occurrence of every distinct row is kept
 * (in table order), and the kept rows become materials through
 * `material_add`.
 */
module MaterialTable {
  import opened Wrappers
  import opened Materials
  import opened MaterialAdd

  /** Row t is the first occurrence of its value. */
  predicate IsFirst<T(==)>(rows: seq<T>, t: nat)
    requires t < |rows|
  {
    rows[t] !in rows[..t]
  }

  /**
   * Lines 93-94: `np.unique(..., return_index=True, axis=0)` gives the
   * index of the first occurrence of every distinct row, `np.sort` puts
   * them in table order.
   */
  function FirstOccurrences<T(==)>(rows: seq<T>): (idx: seq<nat>)
    ensures forall u :: 0 <= u < |idx| ==> idx[u] < |rows| && IsFirst(rows, idx[u])
    ensures forall u, v :: 0 <= u < v < |idx| ==> idx[u] < idx[v]
    ensures forall t :: 0 <= t < |rows| && IsFirst(rows, t) ==> t in idx
  {
    if |rows| == 0 then []
    else
      var last := |rows| - 1;
      var p := rows[..last];
      var prefix := FirstOccurrences(p);
      assert forall t :: 0 <= t < last ==> p[t] == rows[t] && p[..t] == rows[..t];
      assert forall t :: 0 <= t < last ==> (IsFirst(p, t) <==> IsFirst(rows, t));
      prefix + if rows[last] in p then [] else [last]
  }

  /** Every row of the table equals a kept row. */
  lemma FirstOccurrencesCover<T>(rows: seq<T>, t: nat)
    requires t < |rows|
    ensures exists u :: 0 <= u < |FirstOccurrences(rows)| && rows[FirstOccurrences(rows)[u]] == rows[t]
  {
    var idx := FirstOccurrences(rows);
    var f := FirstIndex(rows, t);
    assert f in idx;
    var u :| 0 <= u < |idx| && idx[u] == f;
  }

  /** The first index holding the value of row t. */
  function FirstIndex<T(==)>(rows: seq<T>, t: nat): (f: nat)
    requires t < |rows|
    ensures f <= t && rows[f] == rows[t] && IsFirst(rows, f)
  {
    if rows[t] in rows[..t] then
      var g :| 0 <= g < t && rows[g] == rows[t];
      FirstIndex(rows, g)
    else t
  }

  /** Kept rows are pairwise distinct. */
  lemma FirstOccurrencesDistinct<T>(rows: seq<T>)
    ensures forall u, v :: 0 <= u < v < |FirstOccurrences(rows)| ==>
      rows[FirstOccurrences(rows)[u]] != rows[FirstOccurrences(rows)[v]]
  {
    var idx := FirstOccurrences(rows);
    forall u, v | 0 <= u < v < |idx|
      ensures rows[idx[u]] != rows[idx[v]]
    {
      assert IsFirst(rows, idx[v]);
      assert rows[..idx[v]][idx[u]] == rows[idx[u]];
    }
  }

  /** A table column selected by a keyword: its name and one value per row. */
  type Column = (string, seq<Value>)

  predicate SameLength(cols: seq<Column>, rows: nat)
  {
    forall c :: 0 <= c < |cols| ==> |cols[c].1| == rows
  }

  /** Row t of the stacked columns (`np.hstack`). */
  function Stacked(cols: seq<Column>, rows: nat): (r: seq<seq<Value>>)
    requires SameLength(cols, rows)
    ensures |r| == rows
  {
    seq(rows, t requires 0 <= t < rows => seq(|cols|, c requires 0 <= c < |cols| => cols[c].1[t]))
  }

  /** Line 95: each column restricted to the kept rows, as an L x 1 table. */
  function KeptColumns(cols: seq<Column>, rows: nat): (kw: Kwargs)
    requires SameLength(cols, rows)
    ensures |kw| == |cols|
  {
    var idx := FirstOccurrences(Stacked(cols, rows));
    seq(|cols|, c requires 0 <= c < |cols| =>
      (cols[c].0, seq(|idx|, u requires 0 <= u < |idx| => [cols[c].1[idx[u]]])))
  }

  predicate ColumnNames(cols: seq<Column>)
  {
    (forall c, d :: 0 <= c < d < |cols| ==> cols[c].0 != cols[d].0)
    && forall c :: 0 <= c < |cols| ==> cols[c].0 != "constituents"
  }

  /**
   * `from_table`: the kept rows added to a fresh configuration; stacking no
   * column at all raises in numpy.
   */
  function FromTable(cols: seq<Column>, rows: nat): (r: Result<Config, ConfigError>)
    requires SameLength(cols, rows) && ColumnNames(cols)
    ensures r == Err(NothingToStack) <==> |cols| == 0
    ensures r.Ok? ==> r.value.phase == Some(map[]) && r.value.homogenization == Some(map[])
  {
    var kw := KeptColumns(cols, rows);
    assert WellFormed(kw);
    if |cols| == 0 then Err(NothingToStack) else Added(Default, kw)
  }

  /** The kept columns are N x 1 tables with N the number of distinct rows. */
  lemma KeptShape(cols: seq<Column>, rows: nat)
    requires SameLength(cols, rows) && ColumnNames(cols)
    requires |cols| > 0 && rows > 0
    ensures var kw := KeptColumns(cols, rows);
      var N := |FirstOccurrences(Stacked(cols, rows))|;
      && N >= 1 && WellFormed(kw) && Leading(kw) == N && Trailing(kw) == 1
      && forall c :: 0 <= c < |kw| ==> Fits(kw[c].1, N, 1)
  {
    var kw := KeptColumns(cols, rows);
    var idx := FirstOccurrences(Stacked(cols, rows));
    assert IsFirst(Stacked(cols, rows), 0);
    assert 0 in idx;
    assert forall c :: 0 <= c < |kw| ==> |kw[c].1| == |idx| && Cols(kw[c].1) == 1;
  }

  /**
   * For a non-empty table, `from_table` makes one material per distinct
   * row, in the order of first occurrence, each with one constituent;
   * every column is stored from that row, per constituent for 'phase',
   * 'O' and 'v' and per material otherwise.
   */
  lemma FromTableMaterials(cols: seq<Column>, rows: nat, u: nat)
    requires SameLength(cols, rows) && ColumnNames(cols)
    requires |cols| > 0 && rows > 0
    requires u < |FirstOccurrences(Stacked(cols, rows))|
    ensures FromTable(cols, rows).Ok?
    ensures var ms := FromTable(cols, rows).value.material.value;
      var t := FirstOccurrences(Stacked(cols, rows))[u];
      && |ms| == |FirstOccurrences(Stacked(cols, rows))|
      && ms[u].constituents.Some? && |ms[u].constituents.value| == 1
      && forall c :: 0 <= c < |cols| ==>
           if ConstituentKey(cols[c].0)
           then cols[c].0 in ms[u].constituents.value[0] && ms[u].constituents.value[0][cols[c].0] == cols[c].1[t]
           else cols[c].0 in ms[u].fields && ms[u].fields[cols[c].0] == cols[c].1[t]
  {
    var kw := KeptColumns(cols, rows);
    var idx := FirstOccurrences(Stacked(cols, rows));
    KeptShape(cols, rows);
    assert FromTable(cols, rows) == Added(Default, kw);
    AddedShape(Default, kw);
    AddedEntries(Default, kw, u, 0);
    var q := Added(Default, kw).value.material.value[u];
    forall c | 0 <= c < |cols|
      ensures if ConstituentKey(cols[c].0)
              then cols[c].0 in q.constituents.value[0] && q.constituents.value[0][cols[c].0] == cols[c].1[idx[u]]
              else cols[c].0 in q.fields && q.fields[cols[c].0] == cols[c].1[idx[u]]
    {
      assert kw[c].0 == cols[c].0;
      assert kw[c].0 in KeySet(kw, ConstituentKey(kw[c].0));
      assert Broadcast(kw[c].1, |idx|, 1, u, 0) == cols[c].1[idx[u]];
    }
  }

  lemma FirstOccurrencesRepeat<T>(rows: seq<T>)
    requires |rows| == 3 && rows[1] == rows[0] && rows[2] != rows[0]
    ensures FirstOccurrences(rows) == [0, 2]
  {
    assert rows[..2][..1] == rows[..1] && rows[..1][..0] == [];
    assert FirstOccurrences(rows[..1]) == [0];
    assert rows[..2][1] in rows[..2][..1];
    assert FirstOccurrences(rows[..2]) == [0];
    assert rows[2] !in rows[..2];
  }

  /** Two identical rows give one material: (A, SX) twice and (B, SX) once give two materials. */
  lemma FromTableDuplicateRows()
    ensures
      var cols := [("phase", [Str("A"), Str("A"), Str("B")]), ("homogenization", [Str("SX"), Str("SX"), Str("SX")])];
      FromTable(cols, 3).Ok? && |FromTable(cols, 3).value.material.value| == 2
  {
    var cols := [("phase", [Str("A"), Str("A"), Str("B")]), ("homogenization", [Str("SX"), Str("SX"), Str("SX")])];
    var rows := Stacked(cols, 3);
    assert rows[0] == [Str("A"), Str("SX")] && rows[1] == rows[0];
    assert rows[2] == [Str("B"), Str("SX")];
    FirstOccurrencesRepeat(rows);
    FromTableMaterials(cols, 3, 0);
  }
}
