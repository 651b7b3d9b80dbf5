/**
 From polygons to the edges that are drawn (InfoPanel/obj_wireframe_loader.py): fan
 triangulation, edge counting, and the choice of edges.
 */
module WireMesh {

  datatype Edge = Edge(u: int, v: int)

  datatype Face = Face(a: int, b: int, c: int)

  datatype Vec3 = Vec3(x: real, y: real, z: real)

  /** One side of one triangle. */
  datatype Use = Use(edge: Edge, face: nat)

  /** `_edge_key` */
  function Key(a: int, b: int): Edge {
    if a < b then Edge(a, b) else Edge(b, a)
  }

  // ---------------------------------------------------------------------------
  // Triangles
  // ---------------------------------------------------------------------------

  /** The first `m` triangles of the fan around `v[0]`. */
  function Fan(v: seq<int>, m: nat): (faces: seq<Face>)
    requires m == 0 || m + 2 <= |v|
    ensures |faces| == m
  {
    if m == 0 then [] else Fan(v, m - 1) + [Face(v[0], v[m], v[m + 1])]
  }

  function Triangles(v: seq<int>): seq<Face> {
    Fan(v, if |v| < 3 then 0 else |v| - 2)
  }

  method Triangulate(v: seq<int>) returns (faces: seq<Face>)
    ensures faces == Triangles(v)
  {
    faces := [];
    var k := 1;
    while k < |v| - 1
      invariant 1 <= k && (k <= |v| - 1 || k == 1)
      invariant faces == Fan(v, k - 1)
    {
      faces := faces + [Face(v[0], v[k], v[k + 1])];
      k := k + 1;
    }
  }

  function UsesOf(f: Face, i: nat): seq<Use> {
    [Use(Key(f.a, f.b), i), Use(Key(f.b, f.c), i), Use(Key(f.c, f.a), i)]
  }

  /** All sides of the first `n` triangles, in order. */
  function Uses(faces: seq<Face>, n: nat): seq<Use>
    requires n <= |faces|
  {
    if n == 0 then [] else Uses(faces, n - 1) + UsesOf(faces[n - 1], n - 1)
  }

  // ---------------------------------------------------------------------------
  // Counting
  // ---------------------------------------------------------------------------

  /** The triangles an edge belongs to, in order. */
  function FacesAt(uses: seq<Use>, e: Edge): seq<nat> {
    if uses == [] then []
    else FacesAt(uses[..|uses| - 1], e) + if uses[|uses| - 1].edge == e then [uses[|uses| - 1].face] else []
  }

  function Count(uses: seq<Use>, e: Edge): nat {
    |FacesAt(uses, e)|
  }

  /** The edges in order of first appearance. */
  function FirstSeen(uses: seq<Use>): seq<Edge> {
    if uses == [] then []
    else
      var before, e := uses[..|uses| - 1], uses[|uses| - 1].edge;
      if Count(before, e) == 0 then FirstSeen(before) + [e] else FirstSeen(before)
  }

  lemma CountOneMore(before: seq<Use>, u: Use, e: Edge)
    ensures Count(before + [u], e) == Count(before, e) + if u.edge == e then 1 else 0
  {
    assert (before + [u])[..|before|] == before;
  }

  lemma FirstSeenOneMore(before: seq<Use>, u: Use)
    ensures FirstSeen(before + [u]) == if Count(before, u.edge) == 0 then FirstSeen(before) + [u.edge] else FirstSeen(before)
  {
    assert (before + [u])[..|before|] == before;
  }

  function Dot(n: Vec3, m: Vec3): real {
    n.x * m.x + n.y * m.y + n.z * m.z
  }

  function ClipCosine(r: real): real {
    if r < -1.0 then -1.0 else if r > 1.0 then 1.0 else r
  }

  /** `keep_edges`; any other name than "boundary" and "feature" keeps all.  Normals and threshold are parameters. */
  datatype Mode = All | Boundary | Feature(normals: seq<Vec3>, cosThreshold: real)

  predicate ModeFits(mode: Mode, faces: nat) {
    mode.Feature? ==> |mode.normals| == faces
  }

  predicate Keeps(mode: Mode, faces: seq<nat>)
    requires mode.Feature? ==> forall i :: 0 <= i < |faces| ==> faces[i] < |mode.normals|
  {
    match mode
    case All => true
    case Boundary => |faces| == 1
    case Feature(normals, cosThreshold) =>
      |faces| == 1 || (|faces| >= 2 && ClipCosine(Dot(normals[faces[0]], normals[faces[1]])) <= cosThreshold)
  }

  predicate InRange(uses: seq<Use>, faces: nat) {
    forall i :: 0 <= i < |uses| ==> uses[i].face < faces
  }

  lemma {:induction false} FacesAtInRange(uses: seq<Use>, e: Edge, faces: nat)
    requires InRange(uses, faces)
    ensures forall i :: 0 <= i < |FacesAt(uses, e)| ==> FacesAt(uses, e)[i] < faces
  {
    if uses != [] {
      FacesAtInRange(uses[..|uses| - 1], e, faces);
    }
  }

  lemma {:induction false} UsesInRange(faces: seq<Face>, n: nat)
    requires n <= |faces|
    ensures InRange(Uses(faces, n), |faces|) && |Uses(faces, n)| == 3 * n
  {
    if n > 0 {
      UsesInRange(faces, n - 1);
      hide Uses;
      hide UsesOf;
      UsesStep(faces, n - 1);
    }
  }

  /** The edges of `order` that the mode keeps, in that order. */
  ghost function Selected(order: seq<Edge>, uses: seq<Use>, mode: Mode): seq<Edge>
    requires mode.Feature? ==> InRange(uses, |mode.normals|)
  {
    if order == [] then []
    else
      var e := order[|order| - 1];
      FacesAtInMode(uses, e, mode);
      Selected(order[..|order| - 1], uses, mode)
      + if Keeps(mode, FacesAt(uses, e)) then [e] else []
  }

  lemma FacesAtInMode(uses: seq<Use>, e: Edge, mode: Mode)
    requires mode.Feature? ==> InRange(uses, |mode.normals|)
    ensures mode.Feature? ==> forall i :: 0 <= i < |FacesAt(uses, e)| ==> FacesAt(uses, e)[i] < |mode.normals|
  {
    if mode.Feature? {
      FacesAtInRange(uses, e, |mode.normals|);
    }
  }

  /** `_extract_edges` as a function: the kept edges in order of first appearance. */
  ghost function Edges(faces: seq<Face>, mode: Mode): seq<Edge>
    requires ModeFits(mode, |faces|)
  {
    UsesInRange(faces, |faces|);
    Selected(FirstSeen(Uses(faces, |faces|)), Uses(faces, |faces|), mode)
  }

  // ---------------------------------------------------------------------------
  // The loops
  // ---------------------------------------------------------------------------

  /** The two dictionaries, and the order in which their keys were inserted. */
  datatype Table = Table(counts: map<Edge, nat>, adjacent: map<Edge, seq<nat>>, order: seq<Edge>)

  ghost predicate Tallies(t: Table, uses: seq<Use>) {
    && t.order == FirstSeen(uses)
    && t.counts.Keys == t.adjacent.Keys
    && (forall e :: e in t.counts <==> Count(uses, e) > 0)
    && (forall e :: e in t.counts ==> t.counts[e] == Count(uses, e) && t.adjacent[e] == FacesAt(uses, e))
  }

  lemma FacesOneMore(uses: seq<Use>, u: Use)
    ensures forall e :: FacesAt(uses + [u], e) == if e == u.edge then FacesAt(uses, e) + [u.face] else FacesAt(uses, e)
  {
    var more := uses + [u];
    assert more[..|more| - 1] == uses;
    forall e ensures FacesAt(more, e) == if e == u.edge then FacesAt(uses, e) + [u.face] else FacesAt(uses, e) {
      assert FacesAt(uses, e) + [] == FacesAt(uses, e);
    }
  }

  method AddUse(t: Table, edge: Edge, face: nat, ghost uses: seq<Use>) returns (next: Table)
    requires Tallies(t, uses)
    ensures Tallies(next, uses + [Use(edge, face)])
  {
    hide FacesAt;
    hide FirstSeen;
    FacesOneMore(uses, Use(edge, face));
    FirstSeenOneMore(uses, Use(edge, face));
    if edge in t.counts {
      next := Table(t.counts[edge := t.counts[edge] + 1], t.adjacent[edge := t.adjacent[edge] + [face]], t.order);
    } else {
      assert FacesAt(uses, edge) == [];
      next := Table(t.counts[edge := 1], t.adjacent[edge := [face]], t.order + [edge]);
    }
  }

  method NoUses() returns (t: Table)
    ensures Tallies(t, [])
  {
    t := Table(map[], map[], []);
  }

  method CountEdges(faces: seq<Face>) returns (t: Table)
    ensures Tallies(t, Uses(faces, |faces|))
  {
    hide Tallies;
    t := NoUses();
    for i := 0 to |faces|
      invariant Tallies(t, Uses(faces, i))
    {
      var f := faces[i];
      ghost var uses := Uses(faces, i);
      t := AddUse(t, Key(f.a, f.b), i, uses);
      t := AddUse(t, Key(f.b, f.c), i, uses + [Use(Key(f.a, f.b), i)]);
      t := AddUse(t, Key(f.c, f.a), i, uses + [Use(Key(f.a, f.b), i)] + [Use(Key(f.b, f.c), i)]);
      UsesStep(faces, i);
    }
  }

  lemma UsesStep(faces: seq<Face>, i: nat)
    requires i < |faces|
    ensures var f := faces[i];
            Uses(faces, i + 1) == Uses(faces, i) + [Use(Key(f.a, f.b), i)] + [Use(Key(f.b, f.c), i)] + [Use(Key(f.c, f.a), i)]
  {
    hide Key;
  }

  method ExtractEdges(faces: seq<Face>, mode: Mode) returns (edges: seq<Edge>)
    requires ModeFits(mode, |faces|)
    ensures edges == Edges(faces, mode)
  {
    hide FacesAt;
    hide FirstSeen;
    hide Uses;
    var t := CountEdges(faces);
    ghost var uses := Uses(faces, |faces|);
    UsesInRange(faces, |faces|);
    edges := [];
    for i := 0 to |t.order|
      invariant edges == Selected(t.order[..i], uses, mode)
    {
      var e := t.order[i];
      FirstSeenAreUsed(uses, e);
      FacesAtInMode(uses, e, mode);
      assert t.order[..i + 1][..i] == t.order[..i];
      var kept := if mode.Boundary? then t.counts[e] == 1 else Keeps(mode, t.adjacent[e]);
      if kept {
        edges := edges + [e];
      }
    }
    assert t.order[..|t.order|] == t.order;
  }

  lemma {:induction false} FirstSeenAreUsed(uses: seq<Use>, e: Edge)
    ensures e in FirstSeen(uses) <==> Count(uses, e) > 0
  {
    if uses != [] {
      FirstSeenAreUsed(uses[..|uses| - 1], e);
    }
  }

  // ---------------------------------------------------------------------------
  // Any mesh
  // ---------------------------------------------------------------------------

  predicate Distinct(s: seq<int>) {
    forall i, j :: 0 <= i < j < |s| ==> s[i] != s[j]
  }

  predicate NoneTwice(edges: seq<Edge>) {
    forall i, j :: 0 <= i < j < |edges| ==> edges[i] != edges[j]
  }

  lemma {:induction false} FirstSeenIsDistinct(uses: seq<Use>)
    ensures NoneTwice(FirstSeen(uses))
  {
    if uses != [] {
      var before, e := uses[..|uses| - 1], uses[|uses| - 1].edge;
      FirstSeenIsDistinct(before);
      FirstSeenAreUsed(before, e);
    }
  }

  function SumCounts(edges: seq<Edge>, uses: seq<Use>): nat {
    if edges == [] then 0 else SumCounts(edges[..|edges| - 1], uses) + Count(uses, edges[|edges| - 1])
  }

  /** One more use adds one to the sum when its edge is listed, and nothing otherwise. */
  lemma {:induction false} SumOneMore(edges: seq<Edge>, uses: seq<Use>, u: Use)
    requires NoneTwice(edges)
    ensures SumCounts(edges, uses + [u]) == SumCounts(edges, uses) + if u.edge in edges then 1 else 0
  {
    if edges != [] {
      SumOneMore(edges[..|edges| - 1], uses, u);
      assert (uses + [u])[..|uses|] == uses;
    }
  }

  lemma SumOneMoreEdge(edges: seq<Edge>, e: Edge, uses: seq<Use>)
    ensures SumCounts(edges + [e], uses) == SumCounts(edges, uses) + Count(uses, e)
  {
    assert (edges + [e])[..|edges|] == edges;
  }

  /** Over the edges that were seen, the counts add up to the number of uses. */
  lemma {:induction false} CountsAddUp(uses: seq<Use>)
    ensures SumCounts(FirstSeen(uses), uses) == |uses|
    decreases |uses|
  {
    if uses != [] {
      hide FirstSeen;
      hide SumCounts;
      hide Count;
      var before, u := uses[..|uses| - 1], uses[|uses| - 1];
      assert uses == before + [u];
      CountsAddUp(before);
      FirstSeenIsDistinct(before);
      FirstSeenAreUsed(before, u.edge);
      FirstSeenOneMore(before, u);
      SumOneMore(FirstSeen(before), before, u);
      SumOneMoreEdge(FirstSeen(before), u.edge, uses);
      CountOneMore(before, u, u.edge);
    } else {
      assert FirstSeen(uses) == [];
    }
  }

  /** In any mesh the counts of all edges add up to three for each triangle. */
  lemma CountsAreThreePerTriangle(faces: seq<Face>)
    ensures SumCounts(FirstSeen(Uses(faces, |faces|)), Uses(faces, |faces|)) == 3 * |faces|
  {
    CountsAddUp(Uses(faces, |faces|));
    UsesInRange(faces, |faces|);
  }

  lemma {:induction false} SelectedMeans(order: seq<Edge>, uses: seq<Use>, mode: Mode, e: Edge)
    requires mode.Feature? ==> InRange(uses, |mode.normals|)
    ensures mode.Feature? ==> forall i :: 0 <= i < |FacesAt(uses, e)| ==> FacesAt(uses, e)[i] < |mode.normals|
    ensures e in Selected(order, uses, mode) <==> e in order && Keeps(mode, FacesAt(uses, e))
  {
    FacesAtInMode(uses, e, mode);
    if order != [] {
      SelectedMeans(order[..|order| - 1], uses, mode, e);
    }
  }

  /** Boundary edges are always drawn as features, and only edges of the mesh are drawn at all. */
  lemma ModesAreNested(faces: seq<Face>, features: Mode, e: Edge)
    requires features.Feature? && ModeFits(features, |faces|)
    ensures e in Edges(faces, Boundary) ==> e in Edges(faces, features)
    ensures e in Edges(faces, features) ==> e in Edges(faces, All)
    ensures e in Edges(faces, All) <==> exists i :: 0 <= i < |Uses(faces, |faces|)| && Uses(faces, |faces|)[i].edge == e
  {
    var uses := Uses(faces, |faces|);
    UsesInRange(faces, |faces|);
    SelectedMeans(FirstSeen(uses), uses, Boundary, e);
    SelectedMeans(FirstSeen(uses), uses, features, e);
    SelectedMeans(FirstSeen(uses), uses, All, e);
    FirstSeenAreUsed(uses, e);
    CountMeans(uses, e);
  }

  lemma {:induction false} CountMeans(uses: seq<Use>, e: Edge)
    ensures Count(uses, e) > 0 <==> exists i :: 0 <= i < |uses| && uses[i].edge == e
  {
    if uses != [] {
      var before, last := uses[..|uses| - 1], uses[|uses| - 1];
      CountMeans(before, e);
      if Count(before, e) > 0 {
        var i :| 0 <= i < |before| && before[i].edge == e;
        assert uses[i].edge == e;
      }
      if exists i :: 0 <= i < |uses| && uses[i].edge == e {
        var i :| 0 <= i < |uses| && uses[i].edge == e;
        assert i < |before| ==> before[i].edge == e;
      }
    }
  }

  // ---------------------------------------------------------------------------
  // One polygon
  // ---------------------------------------------------------------------------

  function Sides(v: seq<int>, n: nat): seq<Edge>
    requires n <= |v|
  {
    if n == 0 then [] else Sides(v, n - 1) + [SideAt(v, n - 1)]
  }

  lemma KeyMeans(a: int, b: int, c: int, d: int)
    ensures Key(a, b) == Key(c, d) <==> (a == c && b == d) || (a == d && b == c)
  {
  }

  /** How often the edge from corner `i` to corner `j` is a side of the first `m` triangles. */
  function FanCount(i: nat, j: nat, m: nat): nat {
    if i == 0 then (if 1 <= j <= m then 1 else 0) + (if 2 <= j <= m + 1 then 1 else 0)
    else if j == i + 1 && i <= m then 1
    else 0
  }

  lemma SameCorner(v: seq<int>, a: nat, b: nat)
    requires Distinct(v) && a < |v| && b < |v|
    ensures v[a] == v[b] <==> a == b
  {
  }

  /** A side given by corner numbers, with the smaller number first. */
  lemma SameSide(v: seq<int>, a: nat, b: nat, i: nat, j: nat)
    requires Distinct(v) && a < b < |v| && i < j < |v|
    ensures Key(v[a], v[b]) == Key(v[i], v[j]) <==> a == i && b == j
    ensures Key(v[b], v[a]) == Key(v[a], v[b])
  {
    KeyMeans(v[a], v[b], v[i], v[j]);
    SameCorner(v, a, i);
    SameCorner(v, a, j);
    SameCorner(v, b, i);
    SameCorner(v, b, j);
    SameCorner(v, a, b);
  }

  lemma TriangleUses(v: seq<int>, k: nat, i: nat, j: nat, before: seq<Use>, face: nat)
    requires Distinct(v) && 1 <= k && k + 1 < |v| && i < j < |v|
    ensures Count(before + UsesOf(Face(v[0], v[k], v[k + 1]), face), Key(v[i], v[j]))
            == Count(before, Key(v[i], v[j])) + FanCount(i, j, k) - FanCount(i, j, k - 1)
  {
    hide Key;
    SameSide(v, 0, k, i, j);
    SameSide(v, k, k + 1, i, j);
    SameSide(v, 0, k + 1, i, j);
    ThreeMore(before, UsesOf(Face(v[0], v[k], v[k + 1]), face), Key(v[i], v[j]));
  }

  lemma ThreeMore(before: seq<Use>, three: seq<Use>, e: Edge)
    requires |three| == 3
    ensures Count(before + three, e) == Count(before, e) + (if three[0].edge == e then 1 else 0)
                                        + (if three[1].edge == e then 1 else 0) + (if three[2].edge == e then 1 else 0)
  {
    CountOneMore(before, three[0], e);
    CountOneMore(before + [three[0]], three[1], e);
    CountOneMore(before + [three[0]] + [three[1]], three[2], e);
    assert before + three == before + [three[0]] + [three[1]] + [three[2]];
  }

  lemma NothingIsCounted(e: Edge)
    ensures Count([], e) == 0
  {
  }

  lemma {:induction false} FanCounts(v: seq<int>, m: nat, i: nat, j: nat)
    requires Distinct(v) && m + 2 <= |v| && i < j < |v|
    ensures Count(Uses(Fan(v, m), m), Key(v[i], v[j])) == FanCount(i, j, m)
    decreases m
  {
    hide Distinct;
    hide Key;
    hide Count;
    if m == 0 {
      NothingIsCounted(Key(v[i], v[j]));
    } else {
      FanCounts(v, m - 1, i, j);
      UsesPrefix(Fan(v, m - 1), Fan(v, m), m - 1);
      TriangleUses(v, m, i, j, Uses(Fan(v, m - 1), m - 1), m - 1);
    }
  }

  lemma {:induction false} UsesPrefix(short: seq<Face>, long: seq<Face>, n: nat)
    requires n <= |short| <= |long| && long[..|short|] == short
    ensures Uses(long, n) == Uses(short, n)
  {
    if n > 0 {
      UsesPrefix(short, long, n - 1);
      assert long[n - 1] == short[n - 1];
    }
  }

  /** The order in which the edges of the first `m` triangles appear. */
  function Order(v: seq<int>, m: nat): seq<Edge>
    requires 1 <= m && m + 2 <= |v|
  {
    (if m == 1 then [Key(v[0], v[1])] else Order(v, m - 1)) + [Key(v[m], v[m + 1])] + [Key(v[m + 1], v[0])]
  }

  /** A triangle whose second and third side are new adds these two, and the first one if that is new as well. */
  lemma TriangleSeen(before: seq<Use>, one: Use, two: Use, three: Use)
    requires one.edge != two.edge && one.edge != three.edge && two.edge != three.edge
    requires Count(before, two.edge) == 0 && Count(before, three.edge) == 0
    ensures FirstSeen(before + [one, two, three])
            == FirstSeen(before) + (if Count(before, one.edge) == 0 then [one.edge] else []) + [two.edge] + [three.edge]
  {
    hide FirstSeen;
    hide Count;
    assert before + [one, two, three] == before + [one] + [two] + [three];
    FirstSeenOneMore(before, one);
    FirstSeenOneMore(before + [one], two);
    FirstSeenOneMore(before + [one] + [two], three);
    CountOneMore(before, one, two.edge);
    CountOneMore(before, one, three.edge);
    CountOneMore(before + [one], two, three.edge);
  }

  lemma LastTriangle(v: seq<int>, m: nat)
    requires 1 <= m && m + 2 <= |v|
    ensures Uses(Fan(v, m), m)
            == Uses(Fan(v, m - 1), m - 1) + [Use(Key(v[0], v[m]), m - 1), Use(Key(v[m], v[m + 1]), m - 1), Use(Key(v[m + 1], v[0]), m - 1)]
  {
    UsesPrefix(Fan(v, m - 1), Fan(v, m), m - 1);
  }

  /** Of a new triangle's sides two are new, and they are three different edges. */
  lemma TriangleIsNew(v: seq<int>, m: nat)
    requires Distinct(v) && 1 <= m && m + 2 <= |v|
    ensures var before := Uses(Fan(v, m - 1), m - 1);
            var one, two, three := Key(v[0], v[m]), Key(v[m], v[m + 1]), Key(v[m + 1], v[0]);
            && one != two && one != three && two != three
            && Count(before, two) == 0 && Count(before, three) == 0 && (Count(before, one) == 0 <==> m == 1)
  {
    hide Key;
    hide Count;
    hide Uses;
    hide Fan;
    hide Distinct;
    FanCounts(v, m - 1, 0, m);
    FanCounts(v, m - 1, m, m + 1);
    FanCounts(v, m - 1, 0, m + 1);
    SameSide(v, 0, m, m, m + 1);
    SameSide(v, 0, m, 0, m + 1);
    SameSide(v, m, m + 1, 0, m + 1);
    SameSide(v, 0, m + 1, 0, m + 1);
  }

  lemma {:induction false} FanOrder(v: seq<int>, m: nat)
    requires Distinct(v) && 1 <= m && m + 2 <= |v|
    ensures FirstSeen(Uses(Fan(v, m), m)) == Order(v, m)
    decreases m
  {
    hide Key;
    hide Count;
    hide Uses;
    hide Fan;
    hide Distinct;
    hide FirstSeen;
    LastTriangle(v, m);
    TriangleIsNew(v, m);
    if m == 1 {
      NothingSeen(v);
    } else {
      FanOrder(v, m - 1);
    }
    TriangleSeen(Uses(Fan(v, m - 1), m - 1),
                 Use(Key(v[0], v[m]), m - 1), Use(Key(v[m], v[m + 1]), m - 1), Use(Key(v[m + 1], v[0]), m - 1));
  }

  lemma NothingSeen(v: seq<int>)
    ensures FirstSeen(Uses(Fan(v, 0), 0)) == []
  {
  }

  lemma PolygonCounts(v: seq<int>, i: nat, j: nat)
    requires Distinct(v) && |v| >= 3 && i < j < |v|
    ensures Count(Uses(Triangles(v), |v| - 2), Key(v[i], v[j])) == FanCount(i, j, |v| - 2)
  {
    hide Fan;
    hide Uses;
    hide Count;
    hide Key;
    hide Distinct;
    FanCounts(v, |v| - 2, i, j);
  }

  lemma KeyIsUnordered(a: int, b: int)
    ensures Key(a, b) == Key(b, a)
  {
  }

  /** A side of the polygon is used once, a diagonal twice. */
  lemma SideAndSpokeCounts(v: seq<int>, k: nat)
    requires Distinct(v) && 1 <= k <= |v| - 2
    ensures var uses := Uses(Triangles(v), |v| - 2);
            && Count(uses, Key(v[0], v[1])) == 1
            && Count(uses, Key(v[k], v[k + 1])) == 1
            && Count(uses, Key(v[k + 1], v[0])) == if k == |v| - 2 then 1 else 2
  {
    hide Triangles;
    hide Uses;
    hide Count;
    hide Key;
    hide Distinct;
    PolygonCounts(v, 0, 1);
    PolygonCounts(v, k, k + 1);
    PolygonCounts(v, 0, k + 1);
    KeyIsUnordered(v[0], v[k + 1]);
  }

  lemma SidesEnd(v: seq<int>, k: nat)
    requires 1 <= k <= |v| - 2
    ensures Sides(v, 1) == [Key(v[0], v[1])]
    ensures Sides(v, k + 1) == Sides(v, k) + [Key(v[k], v[k + 1])]
    ensures k == |v| - 2 ==> Sides(v, |v|) == Sides(v, k + 1) + [Key(v[k + 1], v[0])]
  {
    assert Sides(v, 0) == [];
  }

  /** Of the edges of the first `k` triangles, those used once in the whole fan are the first sides of the polygon. */
  lemma {:induction false} BoundaryOfOrder(v: seq<int>, k: nat, uses: seq<Use>)
    requires Distinct(v) && 1 <= k <= |v| - 2 && uses == Uses(Triangles(v), |v| - 2)
    ensures Selected(Order(v, k), uses, Boundary) == if k == |v| - 2 then Sides(v, |v|) else Sides(v, k + 1)
    decreases k
  {
    hide Selected;
    hide Sides;
    hide Distinct;
    hide Key;
    hide Count;
    hide Triangles;
    hide Uses;
    SideAndSpokeCounts(v, k);
    SidesEnd(v, k);
    var first, second := Key(v[k], v[k + 1]), Key(v[k + 1], v[0]);
    if k == 1 {
      SelectedOne(Key(v[0], v[1]), uses);
      SelectedTwoMore([Key(v[0], v[1])], first, second, uses);
    } else {
      BoundaryOfOrder(v, k - 1, uses);
      SelectedTwoMore(Order(v, k - 1), first, second, uses);
    }
  }

  lemma SelectedOne(e: Edge, uses: seq<Use>)
    ensures Selected([e], uses, Boundary) == if Count(uses, e) == 1 then [e] else []
  {
    SelectedOneMore([], e, uses);
    assert [] + [e] == [e];
  }

  lemma SelectedTwoMore(order: seq<Edge>, first: Edge, second: Edge, uses: seq<Use>)
    ensures Selected(order + [first] + [second], uses, Boundary)
            == Selected(order, uses, Boundary) + (if Count(uses, first) == 1 then [first] else [])
               + (if Count(uses, second) == 1 then [second] else [])
  {
    hide Selected;
    SelectedOneMore(order, first, uses);
    SelectedOneMore(order + [first], second, uses);
  }

  lemma SelectedOneMore(order: seq<Edge>, e: Edge, uses: seq<Use>)
    ensures Selected(order + [e], uses, Boundary)
            == Selected(order, uses, Boundary) + if Count(uses, e) == 1 then [e] else []
  {
    assert (order + [e])[..|order|] == order;
  }

  /**
   Triangulating a polygon with distinct corners and keeping the boundary edges gives back exactly the
   polygon's sides, each once and in order: every diagonal is counted twice.
   */
  lemma BoundaryOfPolygon(v: seq<int>)
    requires Distinct(v) && |v| >= 3
    ensures Edges(Triangles(v), Boundary) == Sides(v, |v|)
  {
    hide Uses;
    hide Fan;
    hide Order;
    hide Selected;
    hide FirstSeen;
    FanOrder(v, |v| - 2);
    BoundaryOfOrder(v, |v| - 2, Uses(Triangles(v), |v| - 2));
  }

  /** And the sides really are as many different edges as there are corners. */
  lemma {:induction false} SidesAreDistinct(v: seq<int>, n: nat)
    requires Distinct(v) && |v| >= 3 && n <= |v|
    ensures |Sides(v, n)| == n && NoneTwice(Sides(v, n))
    ensures forall i: nat :: i < n ==> Sides(v, n)[i] == SideAt(v, i)
    decreases n
  {
    if n > 0 {
      SidesAreDistinct(v, n - 1);
      var low, high := if n == |v| then 0 else n - 1, if n == |v| then n - 1 else n;
      var before := Sides(v, n - 1);
      forall i: nat | i < |before| ensures before[i] != SideAt(v, n - 1) {
        SameSide(v, i, i + 1, low, high);
        SameSide(v, low, high, i, i + 1);
      }
    }
  }

  function SideAt(v: seq<int>, i: nat): Edge
    requires i < |v|
  {
    Key(v[i], v[if i + 1 == |v| then 0 else i + 1])
  }
}
