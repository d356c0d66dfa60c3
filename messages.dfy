/**
 * The ROS1 message records the conversions produce: std_msgs/Header,
 * geometry_msgs/Pose, geometry_msgs/Transform, geometry_msgs/TransformStamped,
 * std_msgs/ColorRGBA, visualization_msgs/Marker and MarkerArray, and
 * tf2_msgs/TFMessage. Only the fields the conversions write are kept.
 */
module Messages {

  /** A ROS time stamp or duration: whole seconds and nanoseconds. */
  datatype Time = Time(secs: int, nsecs: int)

  datatype Header = Header(stamp: Time, frameId: string)

  datatype Vector3 = Vector3(x: real, y: real, z: real)

  datatype Quaternion = Quaternion(x: real, y: real, z: real, w: real)

  datatype Pose = Pose(position: Vector3, orientation: Quaternion)

  datatype Transform = Transform(translation: Vector3, rotation: Quaternion)

  datatype ColorRgba = ColorRgba(r: real, g: real, b: real, a: real)

  // The visualization_msgs/Marker constants the conversions use.
  const CUBE: int := 1
  const SPHERE: int := 2
  const CYLINDER: int := 3
  const MESH_RESOURCE: int := 10
  const ADD: int := 0

  /** A visualization marker; markerType holds the message's `type` field. */
  datatype Marker = Marker(
    header: Header,
    id: int,
    markerType: int,
    action: int,
    pose: Pose,
    scale: Vector3,
    color: ColorRgba,
    lifetime: Time,
    frameLocked: bool,
    meshResource: string,
    meshUseEmbeddedMaterials: bool)

  datatype MarkerArray = MarkerArray(markers: seq<Marker>)

  datatype TransformStamped = TransformStamped(header: Header, childFrameId: string, transform: Transform)

  datatype TfMessage = TfMessage(transforms: seq<TransformStamped>)
}
