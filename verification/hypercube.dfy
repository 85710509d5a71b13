/** The combinatorial structure of the 4-cube behind the animated background:
    its 16 vertices, the edge list connecting vertices that differ in one
    coordinate, and the one-cylinder-per-edge binding built from that list
    (src/components/ThreeJSHero.tsx, lines 192-243). */
module Hypercube {
  import opened Geometry

  /** A vertex index: the loop counter of the generation loops. */
  type Index = i: int | 0 <= i < 16

  /** A coordinate axis: 0 is x, 1 is y, 2 is z and 3 is w. */
  type Axis = k: int | 0 <= k < 4

  /** An edge `[i, j]` of `hypercubeLines`, a pair of vertex indices. */
  type Edge = (int, int)

  /** The mask `1`, `2`, `4` or `8` that selects the bit of an index
      deciding the sign of axis `k`. */
  function Mask(k: Axis): int {
    if k == 0 then 1 else if k == 1 then 2 else if k == 2 then 4 else 8
  }

  /** Bit `k` of a non-negative integer, the bit the test `i & Mask(k)`
      inspects (see `BitIsAnd`). */
  predicate Bit(i: nat, k: Axis) {
    (i / Mask(k)) % 2 == 1
  }

  /** The coordinate `b ? 1 : -1` chosen by a bit. */
  function Sign(b: bool): real {
    if b then 1.0 else -1.0
  }

  /** Coordinate `k` of a point. */
  function Coord(v: Vec4, k: Axis): real {
    if k == 0 then v.x else if k == 1 then v.y else if k == 2 then v.z else v.w
  }

  /** Vertex `i` as one iteration of the generation loop builds it: a corner
      of the cube [-1, 1]^4 from which `IndexOf` reads `i` back. */
  function Vertex(i: Index): (v: Vec4)
    ensures forall k: Axis :: Coord(v, k) == 1.0 || Coord(v, k) == -1.0
    ensures IndexOf(v) == i
  {
    IndexCases(i);
    Vec4(Sign(Bit(i, 0)), Sign(Bit(i, 1)), Sign(Bit(i, 2)), Sign(Bit(i, 3)))
  }

  /** The vertex list the generation loop produces. */
  function Vertices(): seq<Vec4> {
    seq(16, i requires 0 <= i < 16 => Vertex(i))
  }

  /** Every index in 0..15, spelled out so that the prover may split on it. */
  lemma IndexCases(i: Index)
    ensures i == 0 || i == 1 || i == 2 || i == 3 || i == 4 || i == 5 || i == 6 || i == 7
         || i == 8 || i == 9 || i == 10 || i == 11 || i == 12 || i == 13 || i == 14 || i == 15
  {
  }

  /** `Bit` agrees with JavaScript's bitwise `&` on every vertex index. */
  lemma BitIsAnd(i: Index, k: Axis)
    ensures Bit(i, k) <==> ((i as bv8) & (Mask(k) as bv8) != 0)
  {
    if k == 0 {
      BitsAreAnds(i);
      assert Mask(k) as bv8 == 1;
    } else if k == 1 {
      BitsAreAnds(i);
      assert Mask(k) as bv8 == 2;
    } else if k == 2 {
      BitsAreAnds(i);
      assert Mask(k) as bv8 == 4;
    } else {
      BitsAreAnds(i);
      assert Mask(k) as bv8 == 8;
    }
  }

  /** `BitIsAnd` for the four masks written out. */
  lemma BitsAreAnds(i: Index)
    ensures Bit(i, 0) <==> (i as bv8) & 1 != 0
    ensures Bit(i, 1) <==> (i as bv8) & 2 != 0
    ensures Bit(i, 2) <==> (i as bv8) & 4 != 0
    ensures Bit(i, 3) <==> (i as bv8) & 8 != 0
  {
    IndexCases(i);
  }

  /** The loop at lines 197-203: vertex `i` takes its sign on axis `k` from
      bit `k` of `i`. */
  method GenerateVertices() returns (vertices: seq<Vec4>)
    ensures |vertices| == 16
    ensures forall i: Index, k: Axis :: Coord(vertices[i], k) == 1.0 || Coord(vertices[i], k) == -1.0
    ensures forall i: Index, k: Axis :: Coord(vertices[i], k) == 1.0 <==> Bit(i, k)
    ensures forall i: Index, j: Index :: i != j ==> vertices[i] != vertices[j]
    ensures vertices == Vertices()
  {
    vertices := [];
    var i := 0;
    while i < 16
      invariant 0 <= i <= 16
      invariant |vertices| == i
      invariant forall a :: 0 <= a < i ==> vertices[a] == Vertex(a)
    {
      var x := if Bit(i, 0) then 1.0 else -1.0;
      var y := if Bit(i, 1) then 1.0 else -1.0;
      var z := if Bit(i, 2) then 1.0 else -1.0;
      var w := if Bit(i, 3) then 1.0 else -1.0;
      vertices := vertices + [Vec4(x, y, z, w)];
      i := i + 1;
    }
    forall i: Index, j: Index | i != j
      ensures vertices[i] != vertices[j]
    {
      assert IndexOf(Vertex(i)) != IndexOf(Vertex(j));
    }
  }

  /** Reads an index back from a vertex: the inverse of `Vertex`, so the 16
      vertices are distinct. */
  function IndexOf(v: Vec4): int {
    (if v.x == 1.0 then 1 else 0) + (if v.y == 1.0 then 2 else 0)
      + (if v.z == 1.0 then 4 else 0) + (if v.w == 1.0 then 8 else 0)
  }

  /** The difference count of lines 212-216: the number of coordinates in
      which two points disagree. */
  function DiffCount(v1: Vec4, v2: Vec4): (n: int)
    ensures 0 <= n <= 4
    ensures n == 0 <==> v1 == v2
  {
    (if v1.x != v2.x then 1 else 0) + (if v1.y != v2.y then 1 else 0)
      + (if v1.z != v2.z then 1 else 0) + (if v1.w != v2.w then 1 else 0)
  }

  /** Lexicographic order on index pairs, the order the nested loops visit. */
  predicate LexLt(a: Edge, b: Edge) {
    a.0 < b.0 || (a.0 == b.0 && a.1 < b.1)
  }

  predicate StrictlySorted(s: seq<Edge>) {
    forall p, q :: 0 <= p < q < |s| ==> LexLt(s[p], s[q])
  }

  /** `(i, j)` is a pair the edge loop must emit for these vertices. */
  predicate Connected(vertices: seq<Vec4>, i: int, j: int)
    requires |vertices| == 16
  {
    0 <= i < j < 16 && DiffCount(vertices[i], vertices[j]) == 1
  }

  /** `lines` holds exactly the connected pairs, each once, in loop order. */
  predicate IsEdgeList(vertices: seq<Vec4>, lines: seq<Edge>)
    requires |vertices| == 16
  {
    && (forall e :: e in lines ==> Connected(vertices, e.0, e.1))
    && (forall i, j | 0 <= i < j < 16 :: Connected(vertices, i, j) ==> (i, j) in lines)
    && StrictlySorted(lines)
  }

  /** The nested loops at lines 206-223. */
  method ConnectVertices(vertices: seq<Vec4>) returns (lines: seq<Edge>)
    requires |vertices| == 16
    ensures forall e :: e in lines ==> 0 <= e.0 < e.1 < 16 && DiffCount(vertices[e.0], vertices[e.1]) == 1
    ensures forall i, j :: 0 <= i < j < 16 && DiffCount(vertices[i], vertices[j]) == 1 ==> (i, j) in lines
    ensures StrictlySorted(lines)
  {
    lines := [];
    var i := 0;
    while i < 16
      invariant 0 <= i <= 16
      invariant forall e :: e in lines ==> Connected(vertices, e.0, e.1) && e.0 < i
      invariant forall a, b :: Connected(vertices, a, b) && a < i ==> (a, b) in lines
      invariant StrictlySorted(lines)
    {
      var j := i + 1;
      while j < 16
        invariant i + 1 <= j <= 16
        invariant forall e :: e in lines ==> Connected(vertices, e.0, e.1) && LexLt(e, (i, j))
        invariant forall a, b :: Connected(vertices, a, b) && LexLt((a, b), (i, j)) ==> (a, b) in lines
        invariant StrictlySorted(lines)
      {
        var v1 := vertices[i];
        var v2 := vertices[j];
        var differences := DiffCount(v1, v2);
        if differences == 1 {
          lines := lines + [(i, j)];
        }
        j := j + 1;
      }
      i := i + 1;
    }
  }

  /** The 32 edges of the 4-cube in the order the loops emit them. */
  const HypercubeEdges: seq<Edge> := [
    (0, 1), (0, 2), (0, 4), (0, 8), (1, 3), (1, 5), (1, 9), (2, 3),
    (2, 6), (2, 10), (3, 7), (3, 11), (4, 5), (4, 6), (4, 12), (5, 7),
    (5, 13), (6, 7), (6, 14), (7, 15), (8, 9), (8, 10), (8, 12), (9, 11),
    (9, 13), (10, 11), (10, 14), (11, 15), (12, 13), (12, 14), (13, 15), (14, 15)
  ]

  /** The reference characterisation of the 4-cube's edges: `i ^ j` is a
      power of two, i.e. the indices differ in exactly one bit. */
  predicate OneBitApart(i: Index, j: Index) {
    var d := (i as bv8) ^ (j as bv8);
    d == 1 || d == 2 || d == 4 || d == 8
  }

  lemma VertexAt(i: Index)
    ensures Vertices()[i] == Vertex(i)
  {
  }

  /** Two vertices differ on axis `k` exactly when their indices differ in
      bit `k`. */
  lemma DiffCountBits(i: Index, j: Index)
    ensures DiffCount(Vertex(i), Vertex(j)) ==
      (if Bit(i, 0) != Bit(j, 0) then 1 else 0) + (if Bit(i, 1) != Bit(j, 1) then 1 else 0)
      + (if Bit(i, 2) != Bit(j, 2) then 1 else 0) + (if Bit(i, 3) != Bit(j, 3) then 1 else 0)
  {
  }

  /** On four-bit words, `x ^ y` is a power of two exactly when `x` and `y`
      disagree in one of the four bits. */
  lemma XorOneBit(x: bv8, y: bv8)
    requires x < 16 && y < 16
    ensures var d := x ^ y;
      (d == 1 || d == 2 || d == 4 || d == 8) <==>
      (if (x & 1 != 0) != (y & 1 != 0) then 1 else 0) + (if (x & 2 != 0) != (y & 2 != 0) then 1 else 0)
      + (if (x & 4 != 0) != (y & 4 != 0) then 1 else 0) + (if (x & 8 != 0) != (y & 8 != 0) then 1 else 0) == 1
  {
  }

  /** Two hypercube vertices differ in exactly one coordinate if and only if
      their indices are one bit apart. */
  lemma DiffCountOneIffOneBitApart(i: Index, j: Index)
    ensures DiffCount(Vertex(i), Vertex(j)) == 1 <==> OneBitApart(i, j)
  {
    DiffCountBits(i, j);
    BitsAreAnds(i);
    BitsAreAnds(j);
    XorOneBit(i as bv8, j as bv8);
  }

  /** The table in four blocks of eight, so that each block's pairs can be
      checked on their own. */
  const EdgeBlock0: seq<Edge> := [(0, 1), (0, 2), (0, 4), (0, 8), (1, 3), (1, 5), (1, 9), (2, 3)]
  const EdgeBlock1: seq<Edge> := [(2, 6), (2, 10), (3, 7), (3, 11), (4, 5), (4, 6), (4, 12), (5, 7)]
  const EdgeBlock2: seq<Edge> := [(5, 13), (6, 7), (6, 14), (7, 15), (8, 9), (8, 10), (8, 12), (9, 11)]
  const EdgeBlock3: seq<Edge> := [(9, 13), (10, 11), (10, 14), (11, 15), (12, 13), (12, 14), (13, 15), (14, 15)]

  /** A pair of the table: ordered indices one bit apart. */
  predicate GoodEdge(e: Edge) {
    0 <= e.0 < e.1 < 16 && OneBitApart(e.0, e.1)
  }

  lemma HypercubeEdgesBlocks()
    ensures HypercubeEdges == EdgeBlock0 + EdgeBlock1 + EdgeBlock2 + EdgeBlock3
  {
  }

  lemma EdgeBlock0Good()
    ensures forall e :: e in EdgeBlock0 ==> GoodEdge(e)
  {
  }

  lemma EdgeBlock1Good()
    ensures forall e :: e in EdgeBlock1 ==> GoodEdge(e)
  {
  }

  lemma EdgeBlock2Good()
    ensures forall e :: e in EdgeBlock2 ==> GoodEdge(e)
  {
  }

  lemma EdgeBlock3Good()
    ensures forall e :: e in EdgeBlock3 ==> GoodEdge(e)
  {
  }

  /** Every pair of the table is ordered and one bit apart. */
  lemma HypercubeEdgesOneBitApart()
    ensures forall e :: e in HypercubeEdges ==> 0 <= e.0 < e.1 < 16 && OneBitApart(e.0, e.1)
  {
    HypercubeEdgesBlocks();
    EdgeBlock0Good();
    EdgeBlock1Good();
    EdgeBlock2Good();
    EdgeBlock3Good();
    forall e | e in HypercubeEdges
      ensures GoodEdge(e)
    {
      assert e in EdgeBlock0 || e in EdgeBlock1 || e in EdgeBlock2 || e in EdgeBlock3;
    }
  }

  /** Indices one bit apart name vertices one coordinate apart. */
  lemma OneBitApartConnected(i: Index, j: Index)
    requires i < j && OneBitApart(i, j)
    ensures Connected(Vertices(), i, j)
  {
    VertexAt(i);
    VertexAt(j);
    DiffCountOneIffOneBitApart(i, j);
  }

  /** Every pair of the table joins two vertices one coordinate apart. */
  lemma HypercubeEdgesSound()
    ensures forall e :: e in HypercubeEdges ==> Connected(Vertices(), e.0, e.1)
  {
    HypercubeEdgesOneBitApart();
    forall e | e in HypercubeEdges
      ensures Connected(Vertices(), e.0, e.1)
    {
      OneBitApartConnected(e.0, e.1);
    }
  }

  /** Every pair of vertices one coordinate apart is in the table. */
  lemma HypercubeEdgesComplete()
    ensures forall i, j | 0 <= i < j < 16 :: Connected(Vertices(), i, j) ==> (i, j) in HypercubeEdges
  {
    forall i, j | 0 <= i < j < 16 && Connected(Vertices(), i, j)
      ensures (i, j) in HypercubeEdges
    {
      IndexCases(i);
      IndexCases(j);
    }
  }

  /** Neighbouring entries of the table are in loop order. */
  lemma HypercubeEdgesNeighbours()
    ensures forall k :: 0 <= k < |HypercubeEdges| - 1 ==> LexLt(HypercubeEdges[k], HypercubeEdges[k + 1])
  {
  }

  lemma HypercubeEdgesSorted()
    ensures StrictlySorted(HypercubeEdges)
  {
    HypercubeEdgesNeighbours();
    forall p, q | 0 <= p < q < |HypercubeEdges|
      ensures LexLt(HypercubeEdges[p], HypercubeEdges[q])
    {
      SortedByNeighbours(HypercubeEdges, p, q);
    }
  }

  /** A list ordered between neighbours is ordered between any two entries. */
  lemma {:induction false} SortedByNeighbours(s: seq<Edge>, p: int, q: int)
    requires forall k :: 0 <= k < |s| - 1 ==> LexLt(s[k], s[k + 1])
    requires 0 <= p < q < |s|
    ensures LexLt(s[p], s[q])
    decreases q - p
  {
    if p + 1 < q {
      SortedByNeighbours(s, p + 1, q);
    }
  }

  lemma HeadIsLeast(a: seq<Edge>, e: Edge)
    requires StrictlySorted(a)
    requires e in a
    ensures e == a[0] || LexLt(a[0], e)
  {
  }

  /** A non-empty list has a first element. */
  lemma HasHead(a: seq<Edge>)
    ensures |a| > 0 ==> a[0] in a
  {
  }

  /** Two strictly sorted lists with the same elements are equal: the loop's
      output is determined by the pairs it must contain. */
  lemma {:induction false} SortedListsEqual(a: seq<Edge>, b: seq<Edge>)
    requires StrictlySorted(a) && StrictlySorted(b)
    requires forall e :: e in a <==> e in b
    ensures a == b
    decreases |a|
  {
    HasHead(a);
    HasHead(b);
    if |a| > 0 && |b| > 0 {
      HeadIsLeast(a, b[0]);
      HeadIsLeast(b, a[0]);
      forall e
        ensures e in a[1..] <==> e in b[1..]
      {
        assert e in a <==> e == a[0] || e in a[1..];
        assert e in b <==> e == b[0] || e in b[1..];
      }
      SortedListsEqual(a[1..], b[1..]);
      assert a == [a[0]] + a[1..];
      assert b == [b[0]] + b[1..];
    }
  }

  /** Any list meeting the edge loop's contract for the hypercube's vertices
      is the 32-entry table; its pairs are exactly those one bit apart. */
  lemma HypercubeEdgeList(lines: seq<Edge>)
    requires IsEdgeList(Vertices(), lines)
    ensures lines == HypercubeEdges
    ensures |lines| == 32
    ensures forall e :: e in lines ==> 0 <= e.0 < e.1 < 16 && OneBitApart(e.0, e.1)
    ensures forall i: Index, j: Index :: i < j && OneBitApart(i, j) ==> (i, j) in lines
  {
    HypercubeEdgesSound();
    HypercubeEdgesComplete();
    HypercubeEdgesSorted();
    SortedListsEqual(lines, HypercubeEdges);
    forall e | e in lines
      ensures OneBitApart(e.0, e.1)
    {
      VertexAt(e.0);
      VertexAt(e.1);
      DiffCountOneIffOneBitApart(e.0, e.1);
    }
    forall i: Index, j: Index | i < j && OneBitApart(i, j)
      ensures (i, j) in lines
    {
      VertexAt(i);
      VertexAt(j);
      DiffCountOneIffOneBitApart(i, j);
    }
  }

  /** Every hypercube vertex lies at squared distance 4 from the origin. */
  lemma VertexNormSq(i: Index)
    ensures NormSq4(Vertex(i)) == 4.0
  {
  }

  /** The transform a cylinder mesh carries: its position and its stretch
      along the local y axis. Its orientation is not modelled. */
  datatype Mesh = Mesh(position: Vec3, scaleY: real)

  /** An entry of `cylinders`: a mesh bound to one edge of the edge list. */
  datatype Cylinder = Cylinder(mesh: Mesh, vertexIndices: Edge)

  /** A mesh as it is created: at the origin and not stretched. */
  const FreshMesh := Mesh(Vec3(0.0, 0.0, 0.0), 1.0)

  /** The loop at lines 232-243: one new cylinder per edge, cylinder `k`
      bound to edge `k`. */
  method BindCylinders(lines: seq<Edge>) returns (cylinders: seq<Cylinder>)
    ensures |cylinders| == |lines|
    ensures forall k :: 0 <= k < |lines| ==> cylinders[k].vertexIndices == lines[k]
    ensures forall k :: 0 <= k < |lines| ==> cylinders[k].mesh == FreshMesh
  {
    cylinders := [];
    var lineIndex := 0;
    while lineIndex < |lines|
      invariant 0 <= lineIndex <= |lines|
      invariant |cylinders| == lineIndex
      invariant forall k :: 0 <= k < lineIndex ==> cylinders[k] == Cylinder(FreshMesh, lines[k])
    {
      cylinders := cylinders + [Cylinder(FreshMesh, lines[lineIndex])];
      lineIndex := lineIndex + 1;
    }
  }

  /** The whole set-up of lines 192-243: the 16 vertices, the 32 edges in
      loop order, and 32 cylinders, one per edge and no edge twice. */
  method BuildHypercube() returns (vertices: seq<Vec4>, lines: seq<Edge>, cylinders: seq<Cylinder>)
    ensures vertices == Vertices()
    ensures lines == HypercubeEdges && |lines| == 32
    ensures |cylinders| == 32
    ensures forall k :: 0 <= k < 32 ==> cylinders[k].vertexIndices == HypercubeEdges[k]
    ensures forall k, l :: 0 <= k < l < 32 ==> cylinders[k].vertexIndices != cylinders[l].vertexIndices
  {
    vertices := GenerateVertices();
    lines := ConnectHypercube(vertices);
    cylinders := BindCylinders(lines);
    HypercubeEdgesSorted();
    SortedDistinct(lines);
  }

  /** The edge loop run on the hypercube's own vertices yields the table. */
  method ConnectHypercube(vertices: seq<Vec4>) returns (lines: seq<Edge>)
    requires vertices == Vertices()
    ensures lines == HypercubeEdges
  {
    lines := ConnectVertices(vertices);
    HypercubeEdgeList(lines);
  }

  /** A strictly sorted list holds no pair twice. */
  lemma SortedDistinct(s: seq<Edge>)
    requires StrictlySorted(s)
    ensures forall k, l :: 0 <= k < l < |s| ==> s[k] != s[l]
  {
    forall k, l | 0 <= k < l < |s|
      ensures s[k] != s[l]
    {
      assert LexLt(s[k], s[l]);
    }
  }
}
