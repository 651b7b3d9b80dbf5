/**
 The feature edges of a mesh: borders and creases, told by the triangles that meet at an edge
 (InfoPanel/obj_wireframe_loader.py, the mode of edges that is used when none is named).
 */
module FeatureEdges {
  import opened WireMesh

  /** The edge is a side of the triangle. */
  predicate Touches(f: Face, e: Edge) {
    e == Key(f.a, f.b) || e == Key(f.b, f.c) || e == Key(f.c, f.a)
  }

  /** An edge is named by its corners, the smaller number first. */
  lemma EdgeIsOrdered(a: int, b: int)
    ensures var low, high := if a < b then a else b, if a < b then b else a;
            Key(a, b) == Edge(low, high) && low <= high
  {
  }

  predicate Proper(f: Face) {
    f.a != f.b && f.b != f.c && f.c != f.a
  }

  predicate AllProper(faces: seq<Face>) {
    forall i :: 0 <= i < |faces| ==> Proper(faces[i])
  }

  /** The triangles among the first `n` that have the edge as a side, in order. */
  function Meeting(faces: seq<Face>, e: Edge, n: nat): seq<nat>
    requires n <= |faces|
  {
    if n == 0 then [] else Meeting(faces, e, n - 1) + if Touches(faces[n - 1], e) then [n - 1] else []
  }

  lemma FacesOfThree(before: seq<Use>, f: Face, i: nat, e: Edge)
    requires Proper(f)
    ensures FacesAt(before + UsesOf(f, i), e) == FacesAt(before, e) + if Touches(f, e) then [i] else []
  {
    var one, two, three := Use(Key(f.a, f.b), i), Use(Key(f.b, f.c), i), Use(Key(f.c, f.a), i);
    KeyMeans(f.a, f.b, f.b, f.c);
    KeyMeans(f.b, f.c, f.c, f.a);
    KeyMeans(f.a, f.b, f.c, f.a);
    hide FacesAt;
    hide Key;
    FacesOneMore(before, one);
    FacesOneMore(before + [one], two);
    FacesOneMore(before + [one] + [two], three);
    assert before + UsesOf(f, i) == before + [one] + [two] + [three];
    assert FacesAt(before, e) + [] == FacesAt(before, e);
  }

  lemma {:induction false} MeetingIs(faces: seq<Face>, e: Edge, n: nat)
    requires n <= |faces| && AllProper(faces)
    ensures FacesAt(Uses(faces, n), e) == Meeting(faces, e, n)
  {
    if n > 0 {
      hide FacesAt;
      MeetingIs(faces, e, n - 1);
      FacesOfThree(Uses(faces, n - 1), faces[n - 1], n - 1, e);
    }
  }

  lemma {:induction false} MeetingMeans(faces: seq<Face>, e: Edge, n: nat)
    requires n <= |faces|
    ensures forall i :: 0 <= i < |Meeting(faces, e, n)| ==> Meeting(faces, e, n)[i] < n
    ensures forall f :: f in Meeting(faces, e, n) <==> 0 <= f < n && Touches(faces[f], e)
    ensures forall i, j :: 0 <= i < j < |Meeting(faces, e, n)| ==> Meeting(faces, e, n)[i] < Meeting(faces, e, n)[j]
  {
    hide Touches;
    if n > 0 {
      MeetingMeans(faces, e, n - 1);
    }
  }

  /** The normals of the two triangles are at least as far apart as the angle with this cosine. */
  predicate Bent(n: Vec3, m: Vec3, cosine: real) {
    n.x * m.x + n.y * m.y + n.z * m.z <= cosine
  }

  lemma KeepsIs(normals: seq<Vec3>, cosine: real, faces: seq<nat>)
    requires forall i :: 0 <= i < |faces| ==> faces[i] < |normals|
    requires -1.0 <= cosine < 1.0
    ensures Keeps(Feature(normals, cosine), faces) <==>
              |faces| == 1 || (|faces| >= 2 && Bent(normals[faces[0]], normals[faces[1]], cosine))
  {
  }

  /**
   An edge is a feature exactly when one triangle alone has it, or when the first two triangles that share it are bent by
   the given angle; what further triangles do does not matter.
   */
  lemma FeaturesAre(faces: seq<Face>, normals: seq<Vec3>, cosine: real, e: Edge)
    requires AllProper(faces) && |normals| == |faces| && -1.0 <= cosine < 1.0
    ensures ModeFits(Feature(normals, cosine), |faces|)
    ensures var meeting := Meeting(faces, e, |faces|);
            && (forall i :: 0 <= i < |meeting| ==> meeting[i] < |faces|)
            && (e in Edges(faces, Feature(normals, cosine)) <==>
                  |meeting| == 1 || (|meeting| >= 2 && Bent(normals[meeting[0]], normals[meeting[1]], cosine)))
  {
    hide Uses;
    hide FirstSeen;
    hide Selected;
    hide FacesAt;
    hide Touches;
    hide Bent;
    hide Keeps;
    var uses := Uses(faces, |faces|);
    UsesInRange(faces, |faces|);
    MeetingIs(faces, e, |faces|);
    MeetingMeans(faces, e, |faces|);
    SelectedMeans(FirstSeen(uses), uses, Feature(normals, cosine), e);
    FirstSeenAreUsed(uses, e);
    KeepsIs(normals, cosine, Meeting(faces, e, |faces|));
  }

  /** In mode `all` every side of a triangle is drawn, as a boundary those of one triangle only. */
  lemma OtherModesAre(faces: seq<Face>, e: Edge)
    requires AllProper(faces)
    ensures e in Edges(faces, All) <==> |Meeting(faces, e, |faces|)| >= 1
    ensures e in Edges(faces, Boundary) <==> |Meeting(faces, e, |faces|)| == 1
  {
    hide Uses;
    hide FirstSeen;
    hide Selected;
    hide FacesAt;
    hide Touches;
    var uses := Uses(faces, |faces|);
    UsesInRange(faces, |faces|);
    MeetingIs(faces, e, |faces|);
    SelectedMeans(FirstSeen(uses), uses, All, e);
    SelectedMeans(FirstSeen(uses), uses, Boundary, e);
    FirstSeenAreUsed(uses, e);
  }
}
