/**
 * The marker codec: one shape, with the frame it is drawn in, its pose in
 * that frame and an optional colour, becomes visualization markers.
 */
module Markers {
  import opened Wrappers
  import opened Messages
  import opened Scene

  /** The colour used when a geometry sets none. */
  const DEFAULT_RGBA: Rgba := Rgba(0.9, 0.9, 0.9, 1.0)

  /** The marker colour for an optional geometry colour: the default when
      absent, otherwise the given components unchanged (no clamping). */
  function UseColor(color: Option<Rgba>): (c: ColorRgba)
    ensures color.None? ==> c == ColorRgba(0.9, 0.9, 0.9, 1.0)
    ensures color.Some? ==>
      c.r == color.value.r && c.g == color.value.g && c.b == color.value.b && c.a == color.value.a
  {
    var rgba := color.GetOr(DEFAULT_RGBA);
    ColorRgba(rgba.r, rgba.g, rgba.b, rgba.a)
  }

  /** The shapes the codec can draw. */
  predicate Supported(shape: Shape) {
    !shape.Other?
  }

  /** The fields every marker of the codec shares. */
  ghost predicate Stamped(m: Marker, stamp: Time, frameName: string, poseInFrame: Pose) {
    && m.header == Header(stamp, frameName)
    && m.pose == poseInFrame
    && m.action == ADD
    && m.lifetime == Time(0, 0)
    && m.frameLocked
  }

  /** Converts a shape to the markers that draw it. Boxes, spheres and
      cylinders become one primitive marker, meshes and convex hulls one mesh
      resource marker; any other shape is rejected. */
  function ToRosMarkers(shape: Shape, stamp: Time, frameName: string, poseInFrame: Pose, color: Option<Rgba>)
    : (r: Result<seq<Marker>, Error>)
    ensures r.Failure? <==> !Supported(shape)
    ensures r.Failure? ==> r.error == UnsupportedShape(shape)
    ensures r.Success? ==>
      && |r.value| == 1
      && Stamped(r.value[0], stamp, frameName, poseInFrame)
      && r.value[0].color == UseColor(color)
      && r.value[0].id == 0
    ensures shape.Box? ==>
      r.Success? && r.value[0].markerType == CUBE && r.value[0].scale == shape.size
    ensures shape.Sphere? ==>
      r.Success? && r.value[0].markerType == SPHERE
      && r.value[0].scale == Vector3(shape.radius, shape.radius, shape.radius)
    ensures shape.Cylinder? ==>
      r.Success? && r.value[0].markerType == CYLINDER
      && r.value[0].scale == Vector3(shape.radius, shape.radius, shape.length)
    ensures (shape.Mesh? || shape.Convex?) ==>
      r.Success? && r.value[0].markerType == MESH_RESOURCE
      && r.value[0].meshResource == "file://" + shape.filename
      && r.value[0].meshUseEmbeddedMaterials
      && r.value[0].scale == Vector3(shape.scale, shape.scale, shape.scale)
    ensures (shape.Box? || shape.Sphere? || shape.Cylinder?) ==>
      r.Success? && r.value[0].meshResource == "" && !r.value[0].meshUseEmbeddedMaterials
  {
    // A fresh marker: id 0, no mesh resource, embedded materials off.
    var marker := Marker(
      Header(stamp, frameName), 0, 0, ADD, poseInFrame, Vector3(0.0, 0.0, 0.0),
      UseColor(color), Time(0, 0), true, "", false);
    match shape
    case Box(size) =>
      Success([marker.(markerType := CUBE, scale := size)])
    case Sphere(radius) =>
      Success([marker.(markerType := SPHERE, scale := Vector3(radius, radius, radius))])
    case Cylinder(radius, length) =>
      Success([marker.(markerType := CYLINDER, scale := Vector3(radius, radius, length))])
    case Mesh(filename, scale) =>
      Success([marker.(markerType := MESH_RESOURCE, meshResource := "file://" + filename,
                       meshUseEmbeddedMaterials := true, scale := Vector3(scale, scale, scale))])
    case Convex(filename, scale) =>
      Success([marker.(markerType := MESH_RESOURCE, meshResource := "file://" + filename,
                       meshUseEmbeddedMaterials := true, scale := Vector3(scale, scale, scale))])
    case Other(_) =>
      Failure(UnsupportedShape(shape))
  }

  /** The shape a marker draws, read back from its type, scale and mesh
      resource; a mesh resource marker reads back as a Mesh. */
  function MarkerShape(m: Marker): Option<Shape> {
    if m.markerType == CUBE then Some(Box(m.scale))
    else if m.markerType == SPHERE then Some(Sphere(m.scale.x))
    else if m.markerType == CYLINDER then Some(Cylinder(m.scale.x, m.scale.z))
    else if m.markerType == MESH_RESOURCE && |m.meshResource| >= 7 && m.meshResource[..7] == "file://" then
      Some(Mesh(m.meshResource[7..], m.scale.x))
    else None
  }

  /** The shape as it is drawn: a convex hull is drawn as the mesh it was read from. */
  function Drawn(shape: Shape): Shape {
    if shape.Convex? then Mesh(shape.filename, shape.scale) else shape
  }

  /** The marker of a supported shape determines the shape, except that a
      convex hull cannot be told apart from a mesh with the same file and scale. */
  lemma MarkerShapeRoundTrip(shape: Shape, stamp: Time, frameName: string, poseInFrame: Pose, color: Option<Rgba>)
    requires Supported(shape)
    ensures MarkerShape(ToRosMarkers(shape, stamp, frameName, poseInFrame, color).value[0]) == Some(Drawn(shape))
  {
    if shape.Mesh? || shape.Convex? {
      var resource := "file://" + shape.filename;
      assert resource[..7] == "file://";
      assert resource[7..] == shape.filename;
    }
  }

  /** Two supported shapes give the same markers exactly when they are drawn alike. */
  lemma MarkersDistinguishShapes(s1: Shape, s2: Shape, stamp: Time, frameName: string, poseInFrame: Pose, color: Option<Rgba>)
    requires Supported(s1) && Supported(s2)
    ensures ToRosMarkers(s1, stamp, frameName, poseInFrame, color) == ToRosMarkers(s2, stamp, frameName, poseInFrame, color)
            <==> Drawn(s1) == Drawn(s2)
  {
    MarkerShapeRoundTrip(s1, stamp, frameName, poseInFrame, color);
    MarkerShapeRoundTrip(s2, stamp, frameName, poseInFrame, color);
  }

  /** The property set of a geometry for a role; asking for the unassigned
      role is an error. */
  function GetRoleProperties(g: Geometry, role: Role): (r: Result<Option<PropertySet>, Error>)
    ensures r.Failure? <==> role == Unassigned
    ensures r.Failure? ==> r.error == UnsupportedRole(role)
    ensures role == Proximity ==> r == Success(g.proximity)
    ensures role == Illustration ==> r == Success(g.illustration)
    ensures role == Perception ==> r == Success(g.perception)
  {
    match role
    case Proximity => Success(g.proximity)
    case Illustration => Success(g.illustration)
    case Perception => Success(g.perception)
    case Unassigned => Failure(UnsupportedRole(role))
  }
}
