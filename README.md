# ROS geometry conversions for Drake, modelled in Dafny

This project models the conversion core of `ros-geometry.py`, which turns a
Drake scene graph snapshot into ROS1 visualization messages. It covers four
parts:

- **Marker codec** (`Markers`): `to_ros_markers` turns one shape into markers.
  A box, sphere or cylinder becomes a CUBE, SPHERE or CYLINDER marker. A mesh
  or convex hull becomes a MESH_RESOURCE marker that points at
  `file://<filename>`. Any other shape is rejected. `use_color` with
  `DEFAULT_RGBA` picks the colour. `get_role_properties` picks a geometry's
  property set for a role.
- **Scene enumerator** (`MarkerArrays`): `to_ros_marker_array` draws every
  geometry that has properties for the requested role, in enumeration order,
  then overwrites each marker's id with its index.
- **Frame publisher** (`TfMessages`): `to_ros_tf_message` collects the
  distinct frame ids of all geometries and sorts them. It then emits one
  world-to-frame transform per frame.
- **Snapshot validator** (`SanityCheck`): `sanity_check_query_object` collects
  four sets of ids and names and compares their sizes.

Supporting modules:

- `Wrappers` holds `Option` and `Result`.
- `Messages` holds the ROS message records and the marker constants
  (CUBE = 1, SPHERE = 2, CYLINDER = 3, MESH_RESOURCE = 10, ADD = 0).
- `Scene` holds the Drake side:
  - shapes, colours and roles;
  - geometry records;
  - the inspector, modelled as the geometry sequence in enumeration order
    plus a map from frame id to frame name;
  - the query object, which adds a map from frame id to world pose.

The source signals an error with a failing `assert`. The model returns
`Failure(...)` for those cases, or `Fail(...)` for the validator:

- `UnsupportedShape` for a shape the codec cannot draw;
- `UnsupportedRole` for a role other than proximity, illustration or
  perception, which in Drake is `Role.kUnassigned`;
- `DuplicateFrameName` and `DuplicateGeometryName` for the validator's two
  cardinality asserts.

The three loop-based functions are methods with loops and invariants:

- `ToRosMarkerArray` (with its enumeration loop `CollectMarkers` and its
  renumbering loop `NumberMarkers`);
- `ToRosTfMessage` (with `CollectFrameIds` and the sort `SortFrameIds`);
- `SanityCheckQueryObject`.

Each method is proved equal to a specification function (`MarkerArrayOf`,
`TfMessageOf`), or to a statement about set sizes. Lemmas then prove what the
source promises about those functions.

Drake's `Role` also has the value `kUnassigned`. `get_role_properties` fails
on it with `assert False, role` (ros-geometry.py:133), so the model returns
`UnsupportedRole`. With that role, enumerating a non-empty scene fails at the
first geometry (`UnassignedRoleFails`).

## Model

| member | source | states |
|---|---|---|
| Markers.UseColor | ros-geometry.py:84-89 | With no colour, the marker colour is the default (0.9, 0.9, 0.9, 1.0). Otherwise every component of the given colour is copied unchanged. |
| Markers.ToRosMarkers | ros-geometry.py:72-121 | Fails exactly for shapes other than box, sphere, cylinder, mesh and convex, with that shape as the error. Otherwise it gives exactly one marker with the given stamp, frame name and pose, action ADD, zero lifetime, frame-locked, id 0 and the resolved colour. A box gives CUBE with scale = size. A sphere gives SPHERE (r, r, r). A cylinder gives CYLINDER (r, r, length). A mesh or convex hull gives MESH_RESOURCE with resource "file://" + filename, embedded materials on and uniform scale. The primitive shapes have no mesh resource. |
| Markers.MarkerShapeRoundTrip | ros-geometry.py:91-118 | Reading the shape back from a drawn marker's type, scale and resource gives the original shape. A convex hull reads back as the mesh of the same file and scale. |
| Markers.MarkersDistinguishShapes | ros-geometry.py:91-118 | Two drawable shapes give equal markers if and only if they are drawn alike. This is equality, except that a convex hull equals the mesh with the same file and scale. |
| Markers.GetRoleProperties | ros-geometry.py:124-133 | For proximity, illustration and perception, returns that role's optional property set. Fails with the role as the error exactly when the role is unassigned. |
| MarkerArrays.GeometryMarkers | ros-geometry.py:169-182 | One geometry's contribution succeeds exactly when the role is assigned and a shown geometry has a drawable shape. It holds one marker when the geometry has properties for the role, and none when it does not. |
| MarkerArrays.Shown | ros-geometry.py:173-176 | A geometry is drawn for a role exactly when it has that role's property set: proximity, illustration or perception. |
| MarkerArrays.ShownMarker | ros-geometry.py:169-182 | The marker of a shown geometry is the one marker `ToRosMarkers` gives for the geometry's shape, frame name, pose in frame and the diffuse colour of the role's property set. It is stamped in the geometry's frame at its pose, and it draws the geometry's own shape. |
| MarkerArrays.MarkersUpTo | ros-geometry.py:168-182 | The enumeration of the first n geometries, before numbering: every marker has id 0. A failure is the unsupported role when the role is unassigned, and otherwise an unsupported shape. |
| MarkerArrays.WithIndexIds | ros-geometry.py:184-187 | The renumbered markers have the same length, marker k has id k, and apart from the id each marker is unchanged. |
| MarkerArrays.MarkerArrayOf | ros-geometry.py:163-188 | The marker array fails exactly when the enumeration fails, with the same error. Otherwise it holds the enumerated markers with marker k's id set to k. |
| MarkerArrays.CollectMarkers | ros-geometry.py:168-182 | The enumeration loop's result equals `MarkersUpTo` over all geometries. |
| MarkerArrays.ShownIndices | ros-geometry.py:168-176 | The listed positions are below n, strictly increasing, and each one is a geometry with properties for the role. |
| MarkerArrays.ShownIndicesComplete | ros-geometry.py:168-176 | Every geometry with properties for the role among the first n has its position listed, so only geometries without properties are skipped. |
| MarkerArrays.ToRosMarkerArray | ros-geometry.py:163-188 | The result equals the specification `MarkerArrayOf`, and on success marker k has id k. |
| MarkerArrays.NumberMarkers | ros-geometry.py:183-187 | Each marker's id is overwritten with its index, and nothing else changes. |
| MarkerArrays.FailureStops | ros-geometry.py:168-182 | Once one geometry fails, the enumeration of every longer prefix fails with the same error. |
| MarkerArrays.MarkersUpToSucceeds | ros-geometry.py:168-182 | Enumerating the first n geometries succeeds if and only if (the role is assigned or n is 0) and every shown geometry has a drawable shape. |
| MarkerArrays.MarkersUpToContents | ros-geometry.py:168-182 | A successful enumeration holds exactly one marker per shown geometry, in enumeration order. The k-th marker is the k-th shown geometry's marker. |
| MarkerArrays.UnassignedRoleFails | ros-geometry.py:133 | With the unassigned role, the enumeration of a non-empty prefix fails with UnsupportedRole, and that of an empty one gives no markers. |
| MarkerArrays.MarkersUpToError | ros-geometry.py:119-121 | With an assigned role, a failed enumeration reports the shape of the first shown geometry whose shape is not drawable. |
| MarkerArrays.ErrorAtExtends | ros-geometry.py:168-182 | A failure among the first n - 1 geometries is reported unchanged, at the same position, for the first n. |
| MarkerArrays.ErrorAtLast | ros-geometry.py:181-182 | When the first n - 1 geometries succeed and n fail, the error is the last geometry's shape, and that geometry is the first unsupported one. |
| MarkerArrays.AllSupportedStep | ros-geometry.py:168-182 | The shown geometries among n are all drawable if and only if those among n - 1 are and the last one, if shown, is. |
| MarkerArrays.MarkerArrayContents | ros-geometry.py:163-188 | The marker array exists if and only if (the role is assigned or the scene is empty) and every shown geometry is drawable. It then has one marker per shown geometry, in order, and marker k is that geometry's marker with id k, so the ids are exactly 0..N-1. |
| TfMessages.LeastOf | ros-geometry.py:197 | Returns an element of the non-empty set that is no larger than any other element. |
| TfMessages.SortFrameIds | ros-geometry.py:197 | The sorted list equals `SortedIds` of the set. |
| TfMessages.SortedIdsElements | ros-geometry.py:197 | The sorted list holds exactly the elements of the set. |
| TfMessages.SortedIdsOrdered | ros-geometry.py:197 | The sorted list is strictly increasing and as long as the set, so no id appears twice. |
| TfMessages.TransformFor | ros-geometry.py:200-207 | The record of one frame has parent "world", the given stamp, the frame's name as child and the frame's world pose. |
| TfMessages.TfMessageOf | ros-geometry.py:197-207 | The message has one record per sorted frame id, and record k is the record of the k-th id. |
| TfMessages.CollectFrameIds | ros-geometry.py:194-196 | The collected set is the set of frame ids of all geometries. |
| TfMessages.SortedFrameIdsNamed | ros-geometry.py:199-201 | Every sorted frame id has a name and a world pose. |
| TfMessages.ToRosTfMessage | ros-geometry.py:191-208 | The message equals the specification `TfMessageOf`. |
| TfMessages.TfMessageFrames | ros-geometry.py:191-208 | The message has one record per distinct frame id used by a geometry, no more records than geometries, and strictly increasing frame ids. Every geometry's frame appears, and every listed frame is used by some geometry. Each record has parent "world", the given stamp, the frame's name as child and the frame's world pose. |
| TfMessages.FrameIdsBound | ros-geometry.py:194-196 | The first n geometries use at most n distinct frames. |
| TfMessages.TfChildFramesDistinct | ros-geometry.py:197-207 | When distinct frames have distinct names, the records name pairwise distinct child frames. |
| SanityCheck.ImageCardinality | ros-geometry.py:159-160 | A map takes no more distinct values on a key set than the set has keys. It takes exactly as many if and only if it is injective on that set. |
| SanityCheck.GeometryNameMap | ros-geometry.py:149 | The id-to-name map of the geometries has exactly the geometry ids as keys and gives each geometry's name. |
| Scene.UpToStep | ros-geometry.py:153-156 | One more loop step adds exactly that geometry's frame id, frame name, id and name to the four sets. |
| SanityCheck.SanityCheckQueryObject | ros-geometry.py:136-160 | Passes if and only if both pairs of counts are equal: frame ids with frame names, and geometry ids with geometry names. It fails with DuplicateFrameName if and only if the frame counts differ, which is checked first. Any failure is one of the two errors. |
| SanityCheck.FrameCountsMeanUniqueNames | ros-geometry.py:159 | The frame counts are equal if and only if distinct frames have distinct names. |
| SanityCheck.GeometryNamesImage | ros-geometry.py:149-154 | The set of geometry names is the image of the geometry ids under the name map. |
| SanityCheck.GeometryNameMapInjective | ros-geometry.py:160 | The name map is injective if and only if distinct geometries have distinct names. |
| SanityCheck.GeometryCountsMeanUniqueNames | ros-geometry.py:160 | The geometry counts are equal if and only if distinct geometries have distinct names. |
| SanityCheck.SanityCheckMeansUniqueNames | ros-geometry.py:136-160 | The validator's condition holds if and only if frame names and geometry names are both unique. |

## Left out

- The pose and transform codec (`_write_pose_msg`, `to_ros_pose`, `to_ros_transform`, `_read_pose_msg`, `from_ros_pose`, `from_ros_transform`, ros-geometry.py:30-66) is not modelled. It is floating-point quaternion arithmetic inside Drake. Geometry poses and world poses are stored already as ROS `Pose` and `Transform` records and are passed through unchanged.
- The world-pose lookup `X_WF` (ros-geometry.py:201) is a foreign call. It is modelled as the query object's map from frame id to world transform.
- Drake's per-role property getters (ros-geometry.py:128-132) are foreign calls. They are modelled as three optional property-set fields on each geometry. A property set holds only its optional ("phong", "diffuse") colour, because that is all the enumerator reads.
- The scene graph's own guarantees are stated as the `Valid` predicates rather than derived: geometry ids are unique, and every geometry's frame has a name and a world pose.
- `serialize_message` and `compare_message` (ros-geometry.py:211-223) are not modelled. They are ROS wire serialization into a byte buffer, done by a foreign library.
- The validator's `debug` print (ros-geometry.py:157-158) is I/O and is left out.
- The `isinstance` asserts (ros-geometry.py:73-75, 126, 141, 164-165, 192) hold by construction of the Dafny types.
- Markers.UseColor: colour components are `real`. The float32 rounding of ROS `ColorRGBA` fields is not modelled.
- Marker fields the source never writes (namespace, points, colours, text) are not part of the `Marker` record.
- TfMessages.SortFrameIds: Python's library `sorted` is modelled by a selection sort over the set. The model states the result (the increasing list of the set's elements), not the library's algorithm.
- `to_ros_marker_array` mutates marker objects in place. The model uses a sequence of marker values that it reassigns. Nothing else holds references to those markers, so aliasing does not arise.

