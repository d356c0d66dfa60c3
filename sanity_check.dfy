/**
 * The snapshot validator: a scene is fit for ROS visualization when distinct
 * frames have distinct names and distinct geometries have distinct names.
 * The check compares the number of distinct ids with the number of distinct
 * names; the lemmas here show that this is exactly name uniqueness.
 */
module SanityCheck {
  import opened Scene

  datatype Outcome = Pass | Fail(error: Error)

  /** The values a map gives to the keys in s. */
  ghost function Image<K, V>(s: set<K>, m: map<K, V>): set<V>
    requires s <= m.Keys
  {
    set x | x in s :: m[x]
  }

  /** The map gives distinct values to distinct keys of s. */
  ghost predicate InjectiveOn<K, V>(s: set<K>, m: map<K, V>)
    requires s <= m.Keys
  {
    forall x, y :: x in s && y in s && x != y ==> m[x] != m[y]
  }

  /** A map never has more values on s than s has keys, and has as many
      exactly when it is injective on s. */
  lemma {:induction false} ImageCardinality<K, V>(s: set<K>, m: map<K, V>)
    requires s <= m.Keys
    ensures |Image(s, m)| <= |s|
    ensures |Image(s, m)| == |s| <==> InjectiveOn(s, m)
    decreases s
  {
    if s != {} {
      var x :| x in s;
      var rest := s - {x};
      ImageCardinality(rest, m);
      assert Image(s, m) == Image(rest, m) + {m[x]};
      if m[x] in Image(rest, m) {
        var y :| y in rest && m[y] == m[x];
        assert x != y;
      } else if InjectiveOn(rest, m) {
        forall y, z | y in s && z in s && y != z
          ensures m[y] != m[z]
        {
          if y != x && z != x {
            assert y in rest && z in rest;
          } else if y == x {
            assert m[z] in Image(rest, m);
          } else {
            assert m[y] in Image(rest, m);
          }
        }
      }
    }
  }

  /** The name of each geometry, by id. */
  ghost function GeometryNameMap(insp: Inspector): (m: map<GeometryId, string>)
    requires insp.Valid()
    ensures m.Keys == insp.GeometryIds()
    ensures forall i :: 0 <= i < |insp.geometries| ==> m[insp.geometries[i].id] == insp.geometries[i].name
  {
    var gs := insp.geometries;
    map i | 0 <= i < |gs| :: gs[i].id := gs[i].name
  }

  /** The frame name count equals the frame id count exactly when distinct
      frames have distinct names. */
  lemma FrameCountsMeanUniqueNames(insp: Inspector)
    requires insp.Valid()
    ensures |insp.FrameIds()| == |insp.FrameNames()| <==> FrameNamesUnique(insp)
  {
    var gs := insp.geometries;
    var ids := insp.FrameIds();
    assert ids <= insp.frameNames.Keys;
    assert insp.FrameNames() == Image(ids, insp.frameNames);
    ImageCardinality(ids, insp.frameNames);
    if InjectiveOn(ids, insp.frameNames) {
      forall i, j | 0 <= i < |gs| && 0 <= j < |gs| && gs[i].frameId != gs[j].frameId
        ensures insp.frameNames[gs[i].frameId] != insp.frameNames[gs[j].frameId]
      {
        assert gs[i].frameId in ids && gs[j].frameId in ids;
      }
    }
  }

  /** The geometry names are the values of the name map on the geometry ids. */
  lemma GeometryNamesImage(insp: Inspector)
    requires insp.Valid()
    ensures insp.GeometryNames() == Image(insp.GeometryIds(), GeometryNameMap(insp))
  {
    var gs := insp.geometries;
    var names := GeometryNameMap(insp);
    forall name | name in Image(insp.GeometryIds(), names)
      ensures name in insp.GeometryNames()
    {
      var x :| x in insp.GeometryIds() && names[x] == name;
      var i :| 0 <= i < |gs| && gs[i].id == x;
    }
  }

  /** The name map is injective exactly when geometry names are unique. */
  lemma GeometryNameMapInjective(insp: Inspector)
    requires insp.Valid()
    ensures InjectiveOn(insp.GeometryIds(), GeometryNameMap(insp)) <==> GeometryNamesUnique(insp)
  {
    var gs := insp.geometries;
    var ids := insp.GeometryIds();
    var names := GeometryNameMap(insp);
    if InjectiveOn(ids, names) {
      forall i, j | 0 <= i < |gs| && 0 <= j < |gs| && i != j
        ensures gs[i].name != gs[j].name
      {
        assert gs[i].id in ids && gs[j].id in ids;
      }
    }
    if GeometryNamesUnique(insp) {
      forall x, y | x in ids && y in ids && x != y
        ensures names[x] != names[y]
      {
        var i :| 0 <= i < |gs| && gs[i].id == x;
        var j :| 0 <= j < |gs| && gs[j].id == y;
      }
    }
  }

  /** The geometry name count equals the geometry id count exactly when
      distinct geometries have distinct names. */
  lemma GeometryCountsMeanUniqueNames(insp: Inspector)
    requires insp.Valid()
    ensures |insp.GeometryIds()| == |insp.GeometryNames()| <==> GeometryNamesUnique(insp)
  {
    GeometryNamesImage(insp);
    GeometryNameMapInjective(insp);
    ImageCardinality(insp.GeometryIds(), GeometryNameMap(insp));
  }

  /** Checks a scene for ROS visualization: the frames must not share names,
      then the geometries must not share names. */
  method SanityCheckQueryObject(q: QueryObject) returns (outcome: Outcome)
    requires q.Valid()
    ensures var insp := q.inspector;
            outcome.Pass? <==>
              |insp.FrameIds()| == |insp.FrameNames()| && |insp.GeometryIds()| == |insp.GeometryNames()|
    ensures outcome == Fail(DuplicateFrameName) <==> |q.inspector.FrameIds()| != |q.inspector.FrameNames()|
    ensures outcome.Fail? ==> outcome.error in {DuplicateFrameName, DuplicateGeometryName}
  {
    var frameIds: set<FrameId> := {};
    var frameNames: set<string> := {};
    var geometryIds: set<GeometryId> := {};
    var geometryNames: set<string> := {};
    var inspector := q.inspector;
    var gs := inspector.geometries;
    var i := 0;
    while i < |gs|
      invariant 0 <= i <= |gs|
      invariant frameIds == inspector.FrameIdsUpTo(i)
      invariant frameNames == inspector.FrameNamesUpTo(i)
      invariant geometryIds == inspector.GeometryIdsUpTo(i)
      invariant geometryNames == inspector.GeometryNamesUpTo(i)
    {
      UpToStep(inspector, i);
      geometryIds := geometryIds + {gs[i].id};
      geometryNames := geometryNames + {gs[i].name};
      frameIds := frameIds + {gs[i].frameId};
      frameNames := frameNames + {inspector.frameNames[gs[i].frameId]};
      i := i + 1;
    }
    assert frameIds == inspector.FrameIds() && frameNames == inspector.FrameNames();
    assert geometryIds == inspector.GeometryIds() && geometryNames == inspector.GeometryNames();
    if |frameIds| != |frameNames| {
      return Fail(DuplicateFrameName);
    }
    if |geometryIds| != |geometryNames| {
      return Fail(DuplicateGeometryName);
    }
    return Pass;
  }

  /** The check passes exactly when frame names and geometry names are unique. */
  lemma SanityCheckMeansUniqueNames(insp: Inspector)
    requires insp.Valid()
    ensures (|insp.FrameIds()| == |insp.FrameNames()| && |insp.GeometryIds()| == |insp.GeometryNames()|)
            <==> FrameNamesUnique(insp) && GeometryNamesUnique(insp)
  {
    FrameCountsMeanUniqueNames(insp);
    GeometryCountsMeanUniqueNames(insp);
  }
}
