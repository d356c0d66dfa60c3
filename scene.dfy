/**
 * The geometry engine's side: shapes, colours, roles and a read-only scene
 * snapshot. The scene graph inspector is modelled as the sequence of its
 * geometries, in the order it enumerates them, together with the names of
 * the frames they hang on; the query object adds the pose of each frame in
 * the world.
 */
module Scene {
  import opened Wrappers
  import opened Messages

  type GeometryId = int
  type FrameId = int

  /** A colour with red, green, blue and alpha components. */
  datatype Rgba = Rgba(r: real, g: real, b: real, a: real)

  /** The shapes a geometry may have; Other stands for every shape kind the
      conversion does not support (capsules, ellipsoids, half spaces, ...). */
  datatype Shape =
    | Box(size: Vector3)
    | Sphere(radius: real)
    | Cylinder(radius: real, length: real)
    | Mesh(filename: string, scale: real)
    | Convex(filename: string, scale: real)
    | Other(kind: string)

  /** The role whose properties a conversion reads. */
  datatype Role = Unassigned | Proximity | Illustration | Perception

  /** A geometry's property set for one role; diffuse is its ("phong", "diffuse") colour, if set. */
  datatype PropertySet = PropertySet(diffuse: Option<Rgba>)

  /** One geometry as the inspector reports it. The pose in its frame is kept
      as the ROS pose it converts to. Each role's property set may be absent. */
  datatype Geometry = Geometry(
    id: GeometryId,
    name: string,
    frameId: FrameId,
    poseInFrame: Pose,
    shape: Shape,
    proximity: Option<PropertySet>,
    illustration: Option<PropertySet>,
    perception: Option<PropertySet>)

  datatype Error =
    | UnsupportedShape(shape: Shape)
    | UnsupportedRole(role: Role)
    | DuplicateFrameName
    | DuplicateGeometryName

  /** A scene snapshot: every geometry in enumeration order and the name of each frame. */
  datatype Inspector = Inspector(geometries: seq<Geometry>, frameNames: map<FrameId, string>) {

    /** What the scene graph guarantees: geometry ids are unique and every
        geometry's frame has a name. */
    ghost predicate Valid() {
      && (forall i, j :: 0 <= i < |geometries| && 0 <= j < |geometries| && i != j ==>
            geometries[i].id != geometries[j].id)
      && (forall i :: 0 <= i < |geometries| ==> geometries[i].frameId in frameNames)
    }

    /** The distinct frame ids of the first n geometries. */
    ghost function FrameIdsUpTo(n: nat): set<FrameId>
      requires n <= |geometries|
    {
      set j | 0 <= j < n :: geometries[j].frameId
    }

    /** The distinct frame names of the first n geometries. */
    ghost function FrameNamesUpTo(n: nat): set<string>
      requires Valid() && n <= |geometries|
    {
      set j | 0 <= j < n :: frameNames[geometries[j].frameId]
    }

    /** The distinct ids of the first n geometries. */
    ghost function GeometryIdsUpTo(n: nat): set<GeometryId>
      requires n <= |geometries|
    {
      set j | 0 <= j < n :: geometries[j].id
    }

    /** The distinct names of the first n geometries. */
    ghost function GeometryNamesUpTo(n: nat): set<string>
      requires n <= |geometries|
    {
      set j | 0 <= j < n :: geometries[j].name
    }

    /** The distinct ids of all geometries. */
    ghost function GeometryIds(): set<GeometryId> {
      GeometryIdsUpTo(|geometries|)
    }

    /** The distinct names of all geometries. */
    ghost function GeometryNames(): set<string> {
      GeometryNamesUpTo(|geometries|)
    }

    /** The distinct ids of the frames some geometry hangs on. */
    ghost function FrameIds(): set<FrameId> {
      FrameIdsUpTo(|geometries|)
    }

    /** The distinct names of the frames some geometry hangs on. */
    ghost function FrameNames(): set<string>
      requires Valid()
    {
      FrameNamesUpTo(|geometries|)
    }
  }

  /** Taking one more geometry adds its frame id, frame name, id and name. */
  lemma UpToStep(insp: Inspector, n: nat)
    requires insp.Valid() && n < |insp.geometries|
    ensures insp.FrameIdsUpTo(n + 1) == insp.FrameIdsUpTo(n) + {insp.geometries[n].frameId}
    ensures insp.FrameNamesUpTo(n + 1) == insp.FrameNamesUpTo(n) + {insp.frameNames[insp.geometries[n].frameId]}
    ensures insp.GeometryIdsUpTo(n + 1) == insp.GeometryIdsUpTo(n) + {insp.geometries[n].id}
    ensures insp.GeometryNamesUpTo(n + 1) == insp.GeometryNamesUpTo(n) + {insp.geometries[n].name}
  {
  }

  /** Distinct frames of the scene have distinct names. */
  ghost predicate FrameNamesUnique(insp: Inspector)
    requires insp.Valid()
  {
    var gs := insp.geometries;
    forall i, j :: 0 <= i < |gs| && 0 <= j < |gs| && gs[i].frameId != gs[j].frameId ==>
      insp.frameNames[gs[i].frameId] != insp.frameNames[gs[j].frameId]
  }

  /** Distinct geometries of the scene have distinct names. */
  ghost predicate GeometryNamesUnique(insp: Inspector) {
    var gs := insp.geometries;
    forall i, j :: 0 <= i < |gs| && 0 <= j < |gs| && i != j ==> gs[i].name != gs[j].name
  }

  /** The query object: a scene snapshot and the world pose of each frame,
      kept as the ROS transform it converts to. */
  datatype QueryObject = QueryObject(inspector: Inspector, framePosesInWorld: map<FrameId, Transform>) {

    ghost predicate Valid() {
      && inspector.Valid()
      && forall i :: 0 <= i < |inspector.geometries| ==> inspector.geometries[i].frameId in framePosesInWorld
    }
  }
}
