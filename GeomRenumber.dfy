/**
 * geom_renumber: after checking the geometry header, every microstructure
 * index of a grid is replaced by 1 + its rank among the distinct indices,
 * so the indices become 1 .. N; the origin in the header is reset to zero.
 */
module GeomRenumber {
  import opened Wrappers
  import opened Triples
  import opened Distinct

  /** The geometry header fields the script reads and writes. */
  datatype GeomInfo = GeomInfo(grid: Triple<int>, size: Vec, origin: Vec, homogenization: int, microstructures: int)

  datatype HeaderError = InvalidGrid | InvalidSize

  /** Lines 46-48: the complaints about a header, in the order they are collected. */
  function HeaderErrors(info: GeomInfo): (errors: seq<HeaderError>)
    ensures errors == [] <==>
      info.grid.x >= 1 && info.grid.y >= 1 && info.grid.z >= 1
      && info.size.x > 0.0 && info.size.y > 0.0 && info.size.z > 0.0
    ensures InvalidGrid in errors <==> info.grid.x < 1 || info.grid.y < 1 || info.grid.z < 1
    ensures InvalidSize in errors <==> info.size.x <= 0.0 || info.size.y <= 0.0 || info.size.z <= 0.0
  {
    (if info.grid.x < 1 || info.grid.y < 1 || info.grid.z < 1 then [InvalidGrid] else [])
    + (if info.size.x <= 0.0 || info.size.y <= 0.0 || info.size.z <= 0.0 then [InvalidSize] else [])
  }

  /** The distinct indices in increasing order (`np.unique`, line 65). */
  function GrainIDs(micro: seq<int>): (ids: seq<int>)
    ensures Increasing(ids, IntLess)
    ensures forall y :: y in ids <==> y in micro
  {
    IntLessOrder();
    Unique(micro, IntLess)
  }

  /** The new index of old index `x`: one more than the number of distinct indices below it. */
  function NewID(micro: seq<int>, x: int): int
  {
    1 + |set y | y in micro && y < x|
  }

  /** Position i of the sorted distinct indices gets the new index i + 1. */
  lemma NewIDIsPosition(micro: seq<int>, i: nat)
    requires i < |GrainIDs(micro)|
    ensures NewID(micro, GrainIDs(micro)[i]) == i + 1
  {
    var ids := GrainIDs(micro);
    IntLessOrder();
    var lt := IntLess;
    IndexIsRank(ids, lt, i);
    assert (set y | y in micro && y < ids[i]) == (set y | y in ids[..i]);
  }

  /** Lines 65-71: the renumbered grid and the new number of microstructures. */
  method Renumber(micro: seq<int>) returns (renumbered: seq<int>, count: nat)
    ensures |renumbered| == |micro|
    ensures forall t :: 0 <= t < |micro| ==> renumbered[t] == NewID(micro, micro[t])
    ensures count == |set y | y in micro|
  {
    var ids := GrainIDs(micro);
    renumbered := micro;
    for i := 0 to |ids|
      invariant |renumbered| == |micro|
      invariant forall t :: 0 <= t < |micro| ==>
        renumbered[t] == if micro[t] in ids[..i] then NewID(micro, micro[t]) else micro[t]
    {
      NewIDIsPosition(micro, i);
      renumbered := seq(|micro|, t requires 0 <= t < |micro| => if micro[t] == ids[i] then i + 1 else renumbered[t]);
      assert forall y :: y in ids[..i + 1] <==> y in ids[..i] || y == ids[i];
    }
    assert ids[..|ids|] == ids;
    count := |ids|;
    IntLessOrder();
    IncreasingCardinality(ids, IntLess);
    assert (set y | y in ids) == (set y | y in micro);
  }

  /** New indices lie in 1 .. N, N the number of distinct old indices. */
  lemma NewIDRange(micro: seq<int>, t: nat)
    requires t < |micro|
    ensures 1 <= NewID(micro, micro[t]) <= |set y | y in micro|
  {
    var ids := GrainIDs(micro);
    assert micro[t] in ids;
    var i :| 0 <= i < |ids| && ids[i] == micro[t];
    NewIDIsPosition(micro, i);
    IntLessOrder();
    IncreasingCardinality(ids, IntLess);
    assert (set y | y in ids) == (set y | y in micro);
  }

  /** Every value 1 .. N is used. */
  lemma NewIDOnto(micro: seq<int>, v: int)
    requires 1 <= v <= |set y | y in micro|
    ensures exists t :: 0 <= t < |micro| && NewID(micro, micro[t]) == v
  {
    var ids := GrainIDs(micro);
    IntLessOrder();
    IncreasingCardinality(ids, IntLess);
    assert (set y | y in ids) == (set y | y in micro);
    NewIDIsPosition(micro, v - 1);
    assert ids[v - 1] in micro;
    var t :| 0 <= t < |micro| && micro[t] == ids[v - 1];
  }

  /** The renumbering keeps the order of indices: a smaller old index gets a smaller new one. */
  lemma NewIDOrder(micro: seq<int>, a: int, b: int)
    requires a in micro && b in micro && a < b
    ensures NewID(micro, a) < NewID(micro, b)
  {
    var below := set y | y in micro && y < a;
    var belowB := set y | y in micro && y < b;
    assert a in belowB && a !in below;
    assert below + {a} <= belowB;
    SubsetCardinality(below + {a}, belowB);
  }

  lemma SubsetCardinality(a: set<int>, b: set<int>)
    requires a <= b
    ensures |a| <= |b|
  {
    assert b == a + (b - a);
  }

  /** Lines 60-61 and 71: the header written back, with the origin at zero. */
  function NewHeader(info: GeomInfo, count: nat): (out: GeomInfo)
    ensures out.origin == Triple(0.0, 0.0, 0.0) && out.microstructures == count
    ensures out.grid == info.grid && out.size == info.size && out.homogenization == info.homogenization
  {
    info.(origin := Triple(0.0, 0.0, 0.0), microstructures := count)
  }
}
