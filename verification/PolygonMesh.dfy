/**
 A mesh of several polygons, each triangulated as a fan: which of its edges are boundary edges
 (InfoPanel/obj_wireframe_loader.py).
 */
module PolygonMesh {
  import opened WireMesh

  predicate Polygon(v: seq<int>) {
    Distinct(v) && |v| >= 3
  }

  predicate AllPolygons(polygons: seq<seq<int>>) {
    forall k :: 0 <= k < |polygons| ==> Polygon(polygons[k])
  }

  /** The triangles of all polygons, one polygon after the other. */
  function Mesh(polygons: seq<seq<int>>): seq<Face> {
    if polygons == [] then [] else Mesh(polygons[..|polygons| - 1]) + Triangles(polygons[|polygons| - 1])
  }

  /** How often an edge is a side of a triangle. */
  function CountIn(faces: seq<Face>, e: Edge): nat {
    Count(Uses(faces, |faces|), e)
  }

  // ---------------------------------------------------------------------------
  // Counts add up over the polygons
  // ---------------------------------------------------------------------------

  lemma {:induction false} CountsOfBoth(a: seq<Face>, b: seq<Face>, n: nat, e: Edge)
    requires n <= |b|
    ensures Count(Uses(a + b, |a| + n), e) == CountIn(a, e) + Count(Uses(b, n), e)
    decreases n
  {
    hide Count;
    if n == 0 {
      UsesPrefix(a, a + b, |a|);
      NothingIsCounted(e);
    } else {
      CountsOfBoth(a, b, n - 1, e);
      assert (a + b)[|a| + n - 1] == b[n - 1];
      ThreeMore(Uses(a + b, |a| + n - 1), UsesOf(b[n - 1], |a| + n - 1), e);
      ThreeMore(Uses(b, n - 1), UsesOf(b[n - 1], n - 1), e);
    }
  }

  function Total(polygons: seq<seq<int>>, e: Edge): nat {
    if polygons == [] then 0
    else Total(polygons[..|polygons| - 1], e) + CountIn(Triangles(polygons[|polygons| - 1]), e)
  }

  lemma {:induction false} MeshCounts(polygons: seq<seq<int>>, e: Edge)
    ensures CountIn(Mesh(polygons), e) == Total(polygons, e)
  {
    if polygons == [] {
      NothingIsCounted(e);
    } else {
      hide Count;
      hide Triangles;
      var before, last := polygons[..|polygons| - 1], Triangles(polygons[|polygons| - 1]);
      MeshCounts(before, e);
      CountsOfBoth(Mesh(before), last, |last|, e);
    }
  }

  /** One polygon has the edge once, and the others do not have it. */
  ghost predicate OnceIn(polygons: seq<seq<int>>, e: Edge, k: nat) {
    && k < |polygons| && CountIn(Triangles(polygons[k]), e) == 1
    && forall l :: 0 <= l < |polygons| && l != k ==> CountIn(Triangles(polygons[l]), e) == 0
  }

  lemma {:induction false} TotalIsZero(polygons: seq<seq<int>>, e: Edge)
    ensures Total(polygons, e) == 0 <==> forall l :: 0 <= l < |polygons| ==> CountIn(Triangles(polygons[l]), e) == 0
  {
    hide CountIn;
    hide Triangles;
    if polygons != [] {
      var before := polygons[..|polygons| - 1];
      TotalIsZero(before, e);
      assert forall l :: 0 <= l < |before| ==> before[l] == polygons[l];
    }
  }

  lemma {:induction false} TotalIsOne(polygons: seq<seq<int>>, e: Edge)
    ensures Total(polygons, e) == 1 <==> exists k: nat :: OnceIn(polygons, e, k)
  {
    hide CountIn;
    hide Triangles;
    if polygons != [] {
      var n := |polygons| - 1;
      var before := polygons[..n];
      TotalIsOne(before, e);
      TotalIsZero(before, e);
      assert forall l :: 0 <= l < n ==> before[l] == polygons[l];
      if Total(polygons, e) == 1 {
        if Total(before, e) == 1 {
          var k: nat :| OnceIn(before, e, k);
          assert OnceIn(polygons, e, k);
        } else {
          assert OnceIn(polygons, e, n);
        }
      }
      if exists k: nat :: OnceIn(polygons, e, k) {
        var k: nat :| OnceIn(polygons, e, k);
        assert k < n ==> OnceIn(before, e, k);
      }
    }
  }

  // ---------------------------------------------------------------------------
  // One polygon
  // ---------------------------------------------------------------------------

  predicate IsSide(v: seq<int>, e: Edge) {
    exists i: nat :: i < |v| && e == SideAt(v, i)
  }

  /** The diagonals that the fan draws. */
  predicate IsSpoke(v: seq<int>, e: Edge) {
    exists k: nat :: 2 <= k < |v| - 1 && e == Key(v[0], v[k])
  }

  /** The edge joins the corners `i` and `j`. */
  predicate Joins(v: seq<int>, e: Edge, i: nat, j: nat) {
    i < j < |v| && e == Key(v[i], v[j])
  }

  lemma {:induction false} UsedEdgesJoinCorners(v: seq<int>, m: nat, e: Edge) returns (i: nat, j: nat)
    requires m + 2 <= |v| && Count(Uses(Fan(v, m), m), e) > 0
    ensures Joins(v, e, i, j)
    decreases m
  {
    hide Key;
    hide Count;
    if m == 0 {
      NothingIsCounted(e);
      assert false;
    } else {
      var before, three := Uses(Fan(v, m - 1), m - 1), UsesOf(Face(v[0], v[m], v[m + 1]), m - 1);
      UsesPrefix(Fan(v, m - 1), Fan(v, m), m - 1);
      ThreeMore(before, three, e);
      KeyIsUnordered(v[m + 1], v[0]);
      if Count(before, e) > 0 {
        i, j := UsedEdgesJoinCorners(v, m - 1, e);
      } else if e == three[0].edge {
        i, j := 0, m;
      } else if e == three[1].edge {
        i, j := m, m + 1;
      } else {
        i, j := 0, m + 1;
      }
    }
  }

  lemma SideJoins(v: seq<int>, i: nat)
    requires |v| >= 3 && i < |v|
    ensures if i + 1 == |v| then Joins(v, SideAt(v, i), 0, i) else Joins(v, SideAt(v, i), i, i + 1)
  {
    KeyIsUnordered(v[i], v[0]);
  }

  /** Two corners that are joined by a given edge are the same two corners. */
  lemma JoinsOnce(v: seq<int>, e: Edge, a: nat, b: nat, i: nat, j: nat)
    requires Distinct(v) && Joins(v, e, a, b) && Joins(v, e, i, j)
    ensures a == i && b == j
  {
    SameSide(v, a, b, i, j);
  }

  /** Between two corners: a side, a spoke, or neither. */
  lemma JoinedIs(v: seq<int>, e: Edge, i: nat, j: nat)
    requires Polygon(v) && Joins(v, e, i, j)
    ensures IsSide(v, e) <==> j == i + 1 || (i == 0 && j == |v| - 1)
    ensures IsSpoke(v, e) <==> i == 0 && 2 <= j < |v| - 1
  {
    hide Key;
    hide Distinct;
    SideJoins(v, i);
    SideJoins(v, j);
    if IsSide(v, e) {
      var k: nat :| k < |v| && e == SideAt(v, k);
      SideJoins(v, k);
      if k + 1 == |v| {
        JoinsOnce(v, e, 0, k, i, j);
      } else {
        JoinsOnce(v, e, k, k + 1, i, j);
      }
    }
    if IsSpoke(v, e) {
      var k: nat :| 2 <= k < |v| - 1 && e == Key(v[0], v[k]);
      JoinsOnce(v, e, 0, k, i, j);
    }
  }

  /** In the fan of one polygon a side is counted once, a spoke twice, and nothing else at all. */
  lemma CountInPolygon(v: seq<int>, e: Edge)
    requires Polygon(v)
    ensures CountIn(Triangles(v), e) == if IsSide(v, e) then 1 else if IsSpoke(v, e) then 2 else 0
    ensures !(IsSide(v, e) && IsSpoke(v, e))
  {
    hide Count;
    hide Key;
    hide Uses;
    hide IsSide;
    hide IsSpoke;
    hide Fan;
    if CountIn(Triangles(v), e) > 0 {
      var i, j := UsedEdgesJoinCorners(v, |v| - 2, e);
      JoinedIs(v, e, i, j);
      PolygonCounts(v, i, j);
    } else if IsSide(v, e) || IsSpoke(v, e) {
      var i, j := SideOrSpokeJoins(v, e);
      JoinedIs(v, e, i, j);
      PolygonCounts(v, i, j);
    }
  }

  lemma SideOrSpokeJoins(v: seq<int>, e: Edge) returns (i: nat, j: nat)
    requires Polygon(v) && (IsSide(v, e) || IsSpoke(v, e))
    ensures Joins(v, e, i, j)
  {
    if IsSide(v, e) {
      var k: nat :| k < |v| && e == SideAt(v, k);
      SideJoins(v, k);
      i, j := if k + 1 == |v| then 0 else k, if k + 1 == |v| then k else k + 1;
    } else {
      i := 0;
      j :| 2 <= j < |v| - 1 && e == Key(v[0], v[j]);
    }
  }

  // ---------------------------------------------------------------------------
  // The boundary of the mesh
  // ---------------------------------------------------------------------------

  /** The edge is a side of the `k`-th polygon and of no other, and no fan draws it as a diagonal. */
  predicate SideOfOne(polygons: seq<seq<int>>, e: Edge, k: nat) {
    && k < |polygons| && IsSide(polygons[k], e)
    && forall l :: 0 <= l < |polygons| && l != k ==> !IsSide(polygons[l], e) && !IsSpoke(polygons[l], e)
  }

  /**
   The boundary edges of a mesh of polygons are exactly the sides that one polygon alone has.  Sides shared by two
   polygons are left out, and so is everything that the fan of any polygon draws as a diagonal.
   */
  lemma BoundaryOfMesh(polygons: seq<seq<int>>, e: Edge)
    requires AllPolygons(polygons)
    ensures e in Edges(Mesh(polygons), Boundary) <==> exists k: nat :: SideOfOne(polygons, e, k)
  {
    hide CountIn;
    hide Edges;
    hide Polygon;
    hide IsSide;
    hide IsSpoke;
    hide Triangles;
    BoundaryIsOnce(Mesh(polygons), e);
    MeshCounts(polygons, e);
    TotalIsOne(polygons, e);
    forall k: nat ensures OnceIn(polygons, e, k) <==> SideOfOne(polygons, e, k) {
      forall l | 0 <= l < |polygons|
        ensures CountIn(Triangles(polygons[l]), e) == if IsSide(polygons[l], e) then 1 else if IsSpoke(polygons[l], e) then 2 else 0
      {
        CountInPolygon(polygons[l], e);
      }
    }
  }

  lemma BoundaryIsOnce(faces: seq<Face>, e: Edge)
    ensures e in Edges(faces, Boundary) <==> CountIn(faces, e) == 1
  {
    hide Uses;
    hide FirstSeen;
    hide Selected;
    hide FacesAt;
    var uses := Uses(faces, |faces|);
    UsesInRange(faces, |faces|);
    SelectedMeans(FirstSeen(uses), uses, Boundary, e);
    FirstSeenAreUsed(uses, e);
  }
}
