/**
 * The scene enumerator: every geometry that has properties for the requested
 * role is drawn with the marker codec, in enumeration order, and the markers
 * are then numbered by their position in the array.
 */
module MarkerArrays {
  import opened Wrappers
  import opened Messages
  import opened Scene
  import opened Markers

  /** Whether a geometry is drawn for a role: it has a property set for that role. */
  predicate Shown(g: Geometry, role: Role)
    ensures Shown(g, role) <==>
              || (role == Proximity && g.proximity.Some?)
              || (role == Illustration && g.illustration.Some?)
              || (role == Perception && g.perception.Some?)
  {
    var properties := GetRoleProperties(g, role);
    properties.Success? && properties.value.Some?
  }

  /** The markers one geometry contributes; a geometry without properties
      for the role contributes none. */
  function GeometryMarkers(insp: Inspector, g: Geometry, role: Role, stamp: Time): (r: Result<seq<Marker>, Error>)
    requires g.frameId in insp.frameNames
    ensures r.Success? <==> role != Unassigned && (Shown(g, role) ==> Supported(g.shape))
    ensures r.Success? ==> |r.value| == (if Shown(g, role) then 1 else 0)
    ensures r.Success? ==> forall k :: 0 <= k < |r.value| ==> r.value[k].id == 0
  {
    match GetRoleProperties(g, role)
    case Failure(e) => Failure(e)
    case Success(None) => Success([])
    case Success(Some(properties)) =>
      ToRosMarkers(g.shape, stamp, insp.frameNames[g.frameId], g.poseInFrame, properties.diffuse)
  }

  /** The one marker of a geometry that is shown and has a supported shape:
      it draws the geometry's shape in the geometry's frame, at its pose, in
      the diffuse colour of the role's property set. */
  function ShownMarker(insp: Inspector, g: Geometry, role: Role, stamp: Time): (m: Marker)
    requires g.frameId in insp.frameNames && Shown(g, role) && Supported(g.shape)
    ensures Stamped(m, stamp, insp.frameNames[g.frameId], g.poseInFrame)
    ensures m.color == UseColor(GetRoleProperties(g, role).value.value.diffuse)
    ensures MarkerShape(m) == Some(Drawn(g.shape))
    ensures ToRosMarkers(g.shape, stamp, insp.frameNames[g.frameId], g.poseInFrame,
                         GetRoleProperties(g, role).value.value.diffuse) == Success([m])
  {
    var diffuse := GetRoleProperties(g, role).value.value.diffuse;
    MarkerShapeRoundTrip(g.shape, stamp, insp.frameNames[g.frameId], g.poseInFrame, diffuse);
    GeometryMarkers(insp, g, role, stamp).value[0]
  }

  /** The markers of the first n geometries, before they are numbered; the
      first geometry that fails stops the enumeration with its error. */
  function MarkersUpTo(insp: Inspector, role: Role, stamp: Time, n: nat): (r: Result<seq<Marker>, Error>)
    requires insp.Valid() && n <= |insp.geometries|
    ensures r.Success? ==> forall k :: 0 <= k < |r.value| ==> r.value[k].id == 0
    ensures r.Failure? ==>
              || (role == Unassigned && r.error == UnsupportedRole(Unassigned))
              || (role != Unassigned && r.error.UnsupportedShape? && !Supported(r.error.shape))
  {
    if n == 0 then Success([])
    else
      match MarkersUpTo(insp, role, stamp, n - 1)
      case Failure(e) => Failure(e)
      case Success(prefix) =>
        match GeometryMarkers(insp, insp.geometries[n - 1], role, stamp)
        case Failure(e) => Failure(e)
        case Success(ms) => Success(prefix + ms)
  }

  /** The markers with each one's id set to its position. */
  function WithIndexIds(ms: seq<Marker>): (r: seq<Marker>)
    ensures |r| == |ms|
    ensures forall k :: 0 <= k < |r| ==> r[k].id == k && r[k].(id := ms[k].id) == ms[k]
  {
    seq(|ms|, k requires 0 <= k < |ms| => ms[k].(id := k))
  }

  /** The marker array of a scene for a role. */
  function MarkerArrayOf(insp: Inspector, role: Role, stamp: Time): (r: Result<MarkerArray, Error>)
    requires insp.Valid()
    ensures var ms := MarkersUpTo(insp, role, stamp, |insp.geometries|);
            && (r.Success? <==> ms.Success?)
            && (r.Failure? ==> r.error == ms.error)
            && (r.Success? ==>
                  && |r.value.markers| == |ms.value|
                  && (forall k :: 0 <= k < |ms.value| ==> r.value.markers[k] == ms.value[k].(id := k)))
  {
    match MarkersUpTo(insp, role, stamp, |insp.geometries|)
    case Failure(e) => Failure(e)
    case Success(ms) => Success(MarkerArray(WithIndexIds(ms)))
  }

  /** The positions, among the first n geometries, of those shown for the
      role, in enumeration order; every shown position is listed. */
  function ShownIndices(gs: seq<Geometry>, role: Role, n: nat): (ix: seq<nat>)
    requires n <= |gs|
    ensures forall k :: 0 <= k < |ix| ==> ix[k] < n && Shown(gs[ix[k]], role)
    ensures forall j, k :: 0 <= j < k < |ix| ==> ix[j] < ix[k]
  {
    if n == 0 then []
    else ShownIndices(gs, role, n - 1) + (if Shown(gs[n - 1], role) then [n - 1] else [])
  }

  /** Converts a scene to a marker array: the markers of every shown geometry
      in enumeration order, then each marker's id overwritten by its index. */
  method ToRosMarkerArray(q: QueryObject, role: Role, stamp: Time) returns (r: Result<MarkerArray, Error>)
    requires q.Valid()
    ensures r == MarkerArrayOf(q.inspector, role, stamp)
    ensures r.Success? ==> forall k :: 0 <= k < |r.value.markers| ==> r.value.markers[k].id == k
  {
    var collected := CollectMarkers(q.inspector, role, stamp);
    if collected.Failure? {
      return Failure(collected.error);
    }
    // Ensure unique ids.
    var markers := NumberMarkers(collected.value);
    r := Success(MarkerArray(markers));
  }

  /** The enumeration loop: appends the markers of every shown geometry in
      order, stopping at the first geometry that fails. */
  method CollectMarkers(inspector: Inspector, role: Role, stamp: Time) returns (r: Result<seq<Marker>, Error>)
    requires inspector.Valid()
    ensures r == MarkersUpTo(inspector, role, stamp, |inspector.geometries|)
  {
    var markers: seq<Marker> := [];
    var i := 0;
    while i < |inspector.geometries|
      invariant 0 <= i <= |inspector.geometries|
      invariant MarkersUpTo(inspector, role, stamp, i) == Success(markers)
    {
      var g := inspector.geometries[i];
      var frameName := inspector.frameNames[g.frameId];
      var properties := GetRoleProperties(g, role);
      if properties.Failure? {
        FailureStops(inspector, role, stamp, i + 1, |inspector.geometries|);
        return Failure(properties.error);
      }
      if properties.value.None? {
        // This role is not assigned to this geometry: skip it.
        assert markers + [] == markers;
        i := i + 1;
        continue;
      }
      var drawn := ToRosMarkers(g.shape, stamp, frameName, g.poseInFrame, properties.value.value.diffuse);
      assert GeometryMarkers(inspector, g, role, stamp) == drawn;
      if drawn.Failure? {
        FailureStops(inspector, role, stamp, i + 1, |inspector.geometries|);
        return Failure(drawn.error);
      }
      markers := markers + drawn.value;
      i := i + 1;
    }
    r := Success(markers);
  }

  /** Overwrites each marker's id with its position, in place. */
  method NumberMarkers(unnumbered: seq<Marker>) returns (markers: seq<Marker>)
    ensures markers == WithIndexIds(unnumbered)
    ensures forall k :: 0 <= k < |markers| ==> markers[k].id == k
  {
    markers := unnumbered;
    var k := 0;
    while k < |markers|
      invariant 0 <= k <= |markers| == |unnumbered|
      invariant forall j :: 0 <= j < k ==> markers[j] == unnumbered[j].(id := j)
      invariant forall j :: k <= j < |markers| ==> markers[j] == unnumbered[j]
    {
      markers := markers[k := markers[k].(id := k)];
      k := k + 1;
    }
  }

  /** Once a geometry fails, the enumeration of any longer prefix fails with the same error. */
  lemma {:induction false} FailureStops(insp: Inspector, role: Role, stamp: Time, i: nat, n: nat)
    requires insp.Valid() && i <= n <= |insp.geometries|
    requires MarkersUpTo(insp, role, stamp, i).Failure?
    ensures MarkersUpTo(insp, role, stamp, n) == MarkersUpTo(insp, role, stamp, i)
    decreases n
  {
    if n > i {
      FailureStops(insp, role, stamp, i, n - 1);
    }
  }

  /** Every shown geometry among the first n has its position listed. */
  lemma {:induction false} ShownIndicesComplete(gs: seq<Geometry>, role: Role, n: nat, i: nat)
    requires i < n <= |gs| && Shown(gs[i], role)
    ensures i in ShownIndices(gs, role, n)
  {
    if i < n - 1 {
      ShownIndicesComplete(gs, role, n - 1, i);
    }
  }

  /** Every geometry at the positions ix has a supported shape. */
  ghost predicate AllSupported(gs: seq<Geometry>, ix: seq<nat>)
    requires forall k :: 0 <= k < |ix| ==> ix[k] < |gs|
  {
    forall k :: 0 <= k < |ix| ==> Supported(gs[ix[k]].shape)
  }

  /** The enumeration of n geometries succeeds when that of the first n - 1
      does and the last geometry's markers do. */
  lemma MarkersUpToStep(insp: Inspector, role: Role, stamp: Time, n: nat)
    requires insp.Valid() && 0 < n <= |insp.geometries|
    ensures MarkersUpTo(insp, role, stamp, n).Success? <==>
              MarkersUpTo(insp, role, stamp, n - 1).Success? &&
              GeometryMarkers(insp, insp.geometries[n - 1], role, stamp).Success?
  {
  }

  /** The shown positions among n geometries are those among the first n - 1,
      then n - 1 itself when that geometry is shown. */
  lemma ShownIndicesStep(gs: seq<Geometry>, role: Role, n: nat)
    requires 0 < n <= |gs|
    ensures var before, ix := ShownIndices(gs, role, n - 1), ShownIndices(gs, role, n);
            && (Shown(gs[n - 1], role) ==> ix == before + [n - 1])
            && (!Shown(gs[n - 1], role) ==> ix == before)
  {
  }

  /** All shown geometries among n are supported when all among the first
      n - 1 are and the last one, if shown, is. */
  lemma AllSupportedStep(gs: seq<Geometry>, role: Role, n: nat)
    requires 0 < n <= |gs|
    ensures AllSupported(gs, ShownIndices(gs, role, n)) <==>
              AllSupported(gs, ShownIndices(gs, role, n - 1)) && (Shown(gs[n - 1], role) ==> Supported(gs[n - 1].shape))
  {
    var before := ShownIndices(gs, role, n - 1);
    var ix := ShownIndices(gs, role, n);
    ShownIndicesStep(gs, role, n);
    if Shown(gs[n - 1], role) {
      assert forall k :: 0 <= k < |before| ==> ix[k] == before[k];
      assert ix[|before|] == n - 1;
    }
  }

  /** The enumeration of the first n geometries succeeds exactly when the
      role is assigned (or there is nothing to enumerate) and every shown
      geometry has a supported shape. */
  lemma {:induction false} MarkersUpToSucceeds(insp: Inspector, role: Role, stamp: Time, n: nat)
    requires insp.Valid() && n <= |insp.geometries|
    ensures MarkersUpTo(insp, role, stamp, n).Success? <==>
              (n == 0 || role != Unassigned) && AllSupported(insp.geometries, ShownIndices(insp.geometries, role, n))
  {
    if n > 0 {
      MarkersUpToSucceeds(insp, role, stamp, n - 1);
      MarkersUpToStep(insp, role, stamp, n);
      AllSupportedStep(insp.geometries, role, n);
    }
  }

  /** A successful enumeration of the first n geometries holds one marker per
      shown geometry, in enumeration order. */
  lemma {:induction false} MarkersUpToContents(insp: Inspector, role: Role, stamp: Time, n: nat)
    requires insp.Valid() && n <= |insp.geometries|
    requires MarkersUpTo(insp, role, stamp, n).Success?
    ensures var ms, gs, ix := MarkersUpTo(insp, role, stamp, n).value, insp.geometries, ShownIndices(insp.geometries, role, n);
            && |ms| == |ix|
            && forall k :: 0 <= k < |ix| ==>
                 Supported(gs[ix[k]].shape) && ms[k] == ShownMarker(insp, gs[ix[k]], role, stamp)
  {
    if n > 0 {
      MarkersUpToContents(insp, role, stamp, n - 1);
      var gs := insp.geometries;
      var g := gs[n - 1];
      var before := ShownIndices(gs, role, n - 1);
      var ix := ShownIndices(gs, role, n);
      var prev := MarkersUpTo(insp, role, stamp, n - 1).value;
      var here := GeometryMarkers(insp, g, role, stamp).value;
      if Shown(g, role) {
        assert (prev + here)[|before|] == here[0];
      } else {
        assert prev + here == prev;
      }
    }
  }

  /** With the unassigned role, the enumeration fails at the first geometry. */
  lemma {:induction false} UnassignedRoleFails(insp: Inspector, stamp: Time, n: nat)
    requires insp.Valid() && n <= |insp.geometries|
    ensures MarkersUpTo(insp, Unassigned, stamp, n) ==
            if n == 0 then Success([]) else Failure(UnsupportedRole(Unassigned))
  {
    if n > 0 {
      UnassignedRoleFails(insp, stamp, n - 1);
    }
  }

  /** The first unsupported entry of the shown positions stays the first
      one when more positions are appended. */
  lemma FirstUnsupportedExtends(gs: seq<Geometry>, before: seq<nat>, ix: seq<nat>, k: nat)
    requires forall j :: 0 <= j < |ix| ==> ix[j] < |gs|
    requires |before| <= |ix| && forall j :: 0 <= j < |before| ==> ix[j] == before[j]
    requires k < |before| && FirstUnsupported(gs, before, k)
    ensures FirstUnsupported(gs, ix, k)
  {
  }

  /** When the first n - 1 geometries already fail, so do n, at the same entry. */
  lemma ErrorAtExtends(insp: Inspector, role: Role, stamp: Time, n: nat, k: nat)
    requires insp.Valid() && 0 < n <= |insp.geometries|
    requires ErrorAt(insp, role, stamp, n - 1, k)
    ensures ErrorAt(insp, role, stamp, n, k)
  {
    var gs := insp.geometries;
    var before := ShownIndices(gs, role, n - 1);
    var ix := ShownIndices(gs, role, n);
    ShownIndicesStep(gs, role, n);
    assert forall j :: 0 <= j < |before| ==> ix[j] == before[j];
    FirstUnsupportedExtends(gs, before, ix, k);
  }

  /** When the first n - 1 geometries succeed and n fail, the last geometry
      is the first unsupported one. */
  lemma ErrorAtLast(insp: Inspector, role: Role, stamp: Time, n: nat)
    requires insp.Valid() && 0 < n <= |insp.geometries| && role != Unassigned
    requires MarkersUpTo(insp, role, stamp, n - 1).Success?
    requires MarkersUpTo(insp, role, stamp, n).Failure?
    ensures ErrorAt(insp, role, stamp, n, |ShownIndices(insp.geometries, role, n - 1)|)
  {
    var gs := insp.geometries;
    var before := ShownIndices(gs, role, n - 1);
    var ix := ShownIndices(gs, role, n);
    MarkersUpToSucceeds(insp, role, stamp, n - 1);
    var g := gs[n - 1];
    assert GeometryMarkers(insp, g, role, stamp) == Failure(UnsupportedShape(g.shape));
    ShownIndicesStep(gs, role, n);
    assert ix == before + [n - 1];
    assert forall j :: 0 <= j < |before| ==> ix[j] == before[j];
    assert FirstUnsupported(gs, ix, |before|);
  }

  /** The error of a failed enumeration with an assigned role: the
      unsupported shape of the first shown geometry that has one. */
  lemma {:induction false} MarkersUpToError(insp: Inspector, role: Role, stamp: Time, n: nat)
    requires insp.Valid() && n <= |insp.geometries| && role != Unassigned
    requires MarkersUpTo(insp, role, stamp, n).Failure?
    ensures exists k: nat :: ErrorAt(insp, role, stamp, n, k)
  {
    if MarkersUpTo(insp, role, stamp, n - 1).Failure? {
      MarkersUpToError(insp, role, stamp, n - 1);
      var k: nat :| ErrorAt(insp, role, stamp, n - 1, k);
      ErrorAtExtends(insp, role, stamp, n, k);
    } else {
      ErrorAtLast(insp, role, stamp, n);
    }
  }

  /** A failed enumeration of the first n geometries reports the unsupported
      shape at entry k of the shown positions, the first unsupported one. */
  ghost predicate ErrorAt(insp: Inspector, role: Role, stamp: Time, n: nat, k: nat)
    requires insp.Valid() && n <= |insp.geometries|
  {
    var gs, ix := insp.geometries, ShownIndices(insp.geometries, role, n);
    && k < |ix|
    && FirstUnsupported(gs, ix, k)
    && MarkersUpTo(insp, role, stamp, n) == Failure(UnsupportedShape(gs[ix[k]].shape))
  }

  /** Entry k of the shown positions ix holds the first unsupported shape. */
  ghost predicate FirstUnsupported(gs: seq<Geometry>, ix: seq<nat>, k: nat)
    requires k < |ix| && forall j :: 0 <= j < |ix| ==> ix[j] < |gs|
  {
    !Supported(gs[ix[k]].shape) && forall j :: 0 <= j < k ==> Supported(gs[ix[j]].shape)
  }

  /** The marker array of a scene: it exists exactly when the role is assigned
      (or the scene is empty) and every shown geometry has a supported shape;
      marker k is then the marker of the k-th shown geometry with id k, so the
      ids are exactly 0 .. N-1 for N shown geometries. */
  lemma MarkerArrayContents(insp: Inspector, role: Role, stamp: Time)
    requires insp.Valid()
    ensures var r := MarkerArrayOf(insp, role, stamp);
            var gs := insp.geometries;
            var ix := ShownIndices(gs, role, |gs|);
            && (r.Success? <==>
                  (gs == [] || role != Unassigned) && AllSupported(gs, ix))
            && (r.Success? ==>
                  && |r.value.markers| == |ix|
                  && forall k :: 0 <= k < |ix| ==> r.value.markers[k] == ShownMarker(insp, gs[ix[k]], role, stamp).(id := k))
  {
    MarkersUpToSucceeds(insp, role, stamp, |insp.geometries|);
    if MarkerArrayOf(insp, role, stamp).Success? {
      MarkersUpToContents(insp, role, stamp, |insp.geometries|);
    }
  }
}
