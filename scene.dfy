/** The scene of the renderer: the four spheres `createScene` builds, the
    per-frame animation of their centres and the orbiting camera position
    that `render` computes before tracing. */
module Scene {
  import opened Vectors
  import opened Colors
  import opened Spheres

  predicate WellFormedScene(scene: seq<Sphere>) {
    forall i :: 0 <= i < |scene| ==> WellFormed(scene[i])
  }

  /** The red metallic, glass, blue diffuse and ground spheres, in that order. */
  function InitialScene(): (scene: seq<Sphere>)
    ensures |scene| == 4 && WellFormedScene(scene)
  {
    [Sphere(Vec3(-2.0, 0.0, -5.0), 1.0, Color(0.8, 0.2, 0.2), 0.9, 0.0),
     Sphere(Vec3(0.0, 0.0, -5.0), 1.0, Color(0.9, 0.9, 0.9), 0.0, 0.9),
     Sphere(Vec3(2.0, 0.0, -5.0), 1.0, Color(0.2, 0.2, 0.8), 0.0, 0.0),
     Sphere(Vec3(0.0, -101.0, -5.0), 100.0, Color(0.5, 0.5, 0.5), 0.0, 0.0)]
  }

  /** The animation step of `render`: sphere 0 bobs along y, sphere 1 sways
      along x and sphere 2 along z, each a function of `time` alone. Only those
      three centre components change; every other sphere, and every radius and
      material, is kept. */
  function Animate(m: MathLib, scene: seq<Sphere>, time: real): (r: seq<Sphere>)
    requires 3 <= |scene|
    ensures |r| == |scene|
    ensures forall i :: 3 <= i < |scene| ==> r[i] == scene[i]
    ensures forall i :: 0 <= i < |scene| ==>
              r[i].radius == scene[i].radius && r[i].color == scene[i].color &&
              r[i].metallic == scene[i].metallic && r[i].transparency == scene[i].transparency
    ensures r[0].center.x == scene[0].center.x && r[0].center.z == scene[0].center.z
    ensures r[1].center.y == scene[1].center.y && r[1].center.z == scene[1].center.z
    ensures r[2].center.x == scene[2].center.x && r[2].center.y == scene[2].center.y
    ensures WellFormedScene(scene) ==> WellFormedScene(r)
  {
    var s0 := scene[0].(center := scene[0].center.(y := m.sin(time * 2.0) * 0.5));
    var s1 := scene[1].(center := scene[1].center.(x := m.sin(time) * 0.5));
    var s2 := scene[2].(center := scene[2].center.(z := -5.0 + m.sin(time * 1.5) * 0.3));
    scene[0 := s0][1 := s1][2 := s2]
  }

  /** At time 0, with sin(0) == 0, the animation leaves the initial scene as built. */
  lemma AnimateAtRest(m: MathLib)
    requires m.sin(0.0) == 0.0
    ensures Animate(m, InitialScene(), 0.0) == InitialScene()
  {
    assert 0.0 * 2.0 == 0.0 && 0.0 * 1.5 == 0.0;
  }

  /** The camera orbit: `distance` along the direction given by the two angles. */
  function CameraPosition(m: MathLib, distance: real, angleX: real, angleY: real): Vec3 {
    Vec3(distance * m.sin(angleX) * m.cos(angleY),
         distance * m.sin(angleY),
         distance * m.cos(angleX) * m.cos(angleY))
  }

  /** When sin and cos of both camera angles satisfy sin² + cos² == 1, the
      camera lies on the sphere of radius `distance` about the origin. */
  lemma CameraOnOrbit(m: MathLib, distance: real, angleX: real, angleY: real)
    requires m.sin(angleX) * m.sin(angleX) + m.cos(angleX) * m.cos(angleX) == 1.0
    requires m.sin(angleY) * m.sin(angleY) + m.cos(angleY) * m.cos(angleY) == 1.0
    ensures var p := CameraPosition(m, distance, angleX, angleY); Dot(p, p) == distance * distance
  {
    var sx, cx, sy, cy := m.sin(angleX), m.cos(angleX), m.sin(angleY), m.cos(angleY);
    var d := distance;
    var k := d * cy;
    assert (d * sx * cy) * (d * sx * cy) + (d * cx * cy) * (d * cx * cy) == k * k * (sx * sx + cx * cx);
    assert (d * sy) * (d * sy) + k * k == d * d * (sy * sy + cy * cy);
  }
}
