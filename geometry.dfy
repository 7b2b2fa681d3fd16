/** Unity's value types as the core uses them: Vector3 positions, RGBA colours and
    axis-aligned Bounds. Floats are modelled as reals, so Encapsulate is exact. */
module Geometry {

  datatype Vec3 = Vec3(x: real, y: real, z: real)

  /** Vector3.zero */
  const Origin: Vec3 := Vec3(0.0, 0.0, 0.0)

  /** Componentwise <= : the order the corners of a box are compared in. */
  predicate Le(a: Vec3, b: Vec3) {
    a.x <= b.x && a.y <= b.y && a.z <= b.z
  }

  function MinR(a: real, b: real): real { if a <= b then a else b }
  function MaxR(a: real, b: real): real { if a <= b then b else a }

  /** Vector3.Min */
  function Min3(a: Vec3, b: Vec3): (r: Vec3)
    ensures Le(r, a) && Le(r, b)
    ensures r.x == a.x || r.x == b.x
    ensures r.y == a.y || r.y == b.y
    ensures r.z == a.z || r.z == b.z
  {
    Vec3(MinR(a.x, b.x), MinR(a.y, b.y), MinR(a.z, b.z))
  }

  /** Vector3.Max */
  function Max3(a: Vec3, b: Vec3): (r: Vec3)
    ensures Le(a, r) && Le(b, r)
    ensures r.x == a.x || r.x == b.x
    ensures r.y == a.y || r.y == b.y
    ensures r.z == a.z || r.z == b.z
  {
    Vec3(MaxR(a.x, b.x), MaxR(a.y, b.y), MaxR(a.z, b.z))
  }

  datatype Color = Color(r: real, g: real, b: real, a: real)

  const White: Color := Color(1.0, 1.0, 1.0, 1.0)

  /** An axis-aligned box given by its corners (Unity stores centre and extents;
      min = centre - extents and max = centre + extents). */
  datatype Box = Box(min: Vec3, max: Vec3) {
    predicate Contains(p: Vec3) {
      Le(min, p) && Le(p, max)
    }

    /** Every point of the non-empty box b lies in this box. */
    predicate Includes(b: Box) {
      Le(min, b.min) && Le(b.max, max)
    }
  }

  /** new Bounds(p, Vector3.zero): a zero-size box at p. */
  function PointBox(p: Vec3): (r: Box)
    ensures r.Contains(p)
    ensures forall q :: r.Contains(q) ==> q == p
  {
    Box(p, p)
  }

  /** new Bounds(): the zero-size box at the origin. */
  const DefaultBox: Box := PointBox(Origin)

  /** Bounds.Encapsulate(Vector3): grow the box to take in p. */
  function Encapsulate(b: Box, p: Vec3): (r: Box)
    ensures r.Contains(p)
    ensures r.Includes(b)
    ensures forall c: Box :: c.Includes(b) && c.Contains(p) ==> c.Includes(r)
  {
    Box(Min3(b.min, p), Max3(b.max, p))
  }

  /** Bounds.Encapsulate(Bounds): grow the box to take in both corners of c. */
  function EncapsulateBox(b: Box, c: Box): (r: Box)
    ensures r.Includes(b)
    ensures r.Contains(c.min) && r.Contains(c.max)
    ensures forall q :: c.Contains(q) ==> r.Contains(q)
  {
    Encapsulate(Encapsulate(b, c.min), c.max)
  }

  /** The box after encapsulating every point of ps, in order, starting from b. */
  function EncapsulateAll(b: Box, ps: seq<Vec3>): Box
    decreases |ps|
  {
    if ps == [] then b else EncapsulateAll(Encapsulate(b, ps[0]), ps[1..])
  }

  /** Encapsulating a sequence gives the smallest box that includes the start box
      and contains every point of the sequence. */
  lemma {:induction false} EncapsulateAllMinimal(b: Box, ps: seq<Vec3>)
    ensures EncapsulateAll(b, ps).Includes(b)
    ensures forall i :: 0 <= i < |ps| ==> EncapsulateAll(b, ps).Contains(ps[i])
    ensures forall c: Box ::
      c.Includes(b) && (forall i :: 0 <= i < |ps| ==> c.Contains(ps[i])) ==> c.Includes(EncapsulateAll(b, ps))
    decreases |ps|
  {
    if ps != [] {
      var b' := Encapsulate(b, ps[0]);
      EncapsulateAllMinimal(b', ps[1..]);
      assert forall i :: 1 <= i < |ps| ==> ps[i] == ps[1..][i - 1];
      forall c: Box | c.Includes(b) && (forall i :: 0 <= i < |ps| ==> c.Contains(ps[i]))
        ensures c.Includes(EncapsulateAll(b, ps))
      {
        assert c.Contains(ps[0]);
        assert c.Includes(b');
        assert forall i :: 0 <= i < |ps[1..]| ==> c.Contains(ps[1..][i]);
      }
    }
  }

  /** Appending a point to the sequence encapsulates it last. */
  lemma {:induction false} EncapsulateAllSnoc(b: Box, ps: seq<Vec3>, p: Vec3)
    ensures EncapsulateAll(b, ps + [p]) == Encapsulate(EncapsulateAll(b, ps), p)
    decreases |ps|
  {
    if ps != [] {
      assert (ps + [p])[1..] == ps[1..] + [p];
      EncapsulateAllSnoc(Encapsulate(b, ps[0]), ps[1..], p);
    }
  }

  /** Two boxes that each include the other are the same box. */
  lemma IncludesAntisymmetric(a: Box, c: Box)
    requires a.Includes(c) && c.Includes(a)
    ensures a == c
  {
  }

  /** The result is independent of the order (and repetition) of the points. */
  lemma EncapsulateAllOrderIndependent(b: Box, ps: seq<Vec3>, qs: seq<Vec3>)
    requires forall p :: p in ps <==> p in qs
    ensures EncapsulateAll(b, ps) == EncapsulateAll(b, qs)
  {
    EncapsulateAllMinimal(b, ps);
    EncapsulateAllMinimal(b, qs);
    var rp, rq := EncapsulateAll(b, ps), EncapsulateAll(b, qs);
    forall i | 0 <= i < |qs| ensures rp.Contains(qs[i]) {
      assert qs[i] in ps;
      var j :| 0 <= j < |ps| && ps[j] == qs[i];
    }
    forall i | 0 <= i < |ps| ensures rq.Contains(ps[i]) {
      assert ps[i] in qs;
      var j :| 0 <= j < |qs| && qs[j] == ps[i];
    }
    IncludesAntisymmetric(rp, rq);
  }

  /** The colour table gives name, or white when it does not list it. */
  function ColourOf(table: seq<(string, Color)>, name: string): Color
  {
    if table == [] then White
    else if table[0].0 == name then table[0].1
    else ColourOf(table[1..], name)
  }

  /** A listed name gets its own colour and any other name white. */
  lemma {:induction false} ColourOfFinds(table: seq<(string, Color)>, name: string, i: nat)
    requires i < |table| && table[i].0 == name
    requires forall j :: 0 <= j < i ==> table[j].0 != name
    ensures ColourOf(table, name) == table[i].1
  {
    if i > 0 {
      ColourOfFinds(table[1..], name, i - 1);
    }
  }

  lemma {:induction false} ColourOfMisses(table: seq<(string, Color)>, name: string)
    requires forall j :: 0 <= j < |table| ==> table[j].0 != name
    ensures ColourOf(table, name) == White
  {
    if table != [] {
      ColourOfMisses(table[1..], name);
    }
  }
}
