/**
 * The frame-transform publisher: one world-to-frame transform per distinct
 * frame that some geometry hangs on, ordered by frame id.
 */
module TfMessages {
  import opened Messages
  import opened Scene

  /** The name of the root frame every transform is expressed in. */
  const WORLD: string := "world"

  predicate StrictlyIncreasing(s: seq<FrameId>) {
    forall i, j :: 0 <= i < j < |s| ==> s[i] < s[j]
  }

  /** A non-empty set has an element. */
  lemma HasElement(s: set<FrameId>)
    requires s != {}
    ensures exists x :: x in s
  {
    if forall x :: x !in s {
      assert false;
    }
  }

  /** The least element of a non-empty set of frame ids. */
  ghost function Least(s: set<FrameId>): (m: FrameId)
    requires s != {}
    ensures m in s && forall x :: x in s ==> m <= x
  {
    HasElement(s);
    var x :| x in s;
    if s == {x} then x
    else
      var rest := s - {x};
      var least := Least(rest);
      assert forall y :: y in s ==> y == x || y in rest;
      if x < least then x else least
  }

  /** The elements of s in increasing order. */
  ghost function SortedIds(s: set<FrameId>): seq<FrameId>
    decreases s
  {
    if s == {} then []
    else
      var m := Least(s);
      [m] + SortedIds(s - {m})
  }

  /** SortedIds lists exactly the elements of the set. */
  lemma {:induction false} SortedIdsElements(s: set<FrameId>)
    ensures forall x :: x in SortedIds(s) <==> x in s
    ensures forall k :: 0 <= k < |SortedIds(s)| ==> SortedIds(s)[k] in s
    decreases s
  {
    if s != {} {
      SortedIdsElements(s - {Least(s)});
    }
    var r := SortedIds(s);
    assert forall k :: 0 <= k < |r| ==> r[k] in r;
  }

  /** A value below every element of an increasing sequence extends it. */
  lemma PrependIncreasing(m: FrameId, rest: seq<FrameId>)
    requires StrictlyIncreasing(rest)
    requires forall k :: 0 <= k < |rest| ==> m < rest[k]
    ensures StrictlyIncreasing([m] + rest)
  {
    var r := [m] + rest;
    forall i, j | 0 <= i < j < |r|
      ensures r[i] < r[j]
    {
      assert r[j] == rest[j - 1];
      if i > 0 {
        assert r[i] == rest[i - 1];
      }
    }
  }

  /** SortedIds lists the elements of the set in strictly increasing order,
      so each one once. */
  lemma {:induction false} SortedIdsOrdered(s: set<FrameId>)
    ensures StrictlyIncreasing(SortedIds(s))
    ensures |SortedIds(s)| == |s|
    decreases s
  {
    if s != {} {
      var m := Least(s);
      var rest := SortedIds(s - {m});
      SortedIdsOrdered(s - {m});
      SortedIdsElements(s - {m});
      assert forall k :: 0 <= k < |rest| ==> rest[k] in s - {m};
      PrependIncreasing(m, rest);
    }
  }

  /** The least element of a non-empty set, found by one pass over it. */
  method LeastOf(s: set<FrameId>) returns (m: FrameId)
    requires s != {}
    ensures m in s && forall x :: x in s ==> m <= x
  {
    HasElement(s);
    m :| m in s;
    var todo := s - {m};
    while todo != {}
      invariant todo <= s && m in s
      invariant forall x :: x in s && x !in todo ==> m <= x
      decreases todo
    {
      HasElement(todo);
      var x :| x in todo;
      if x < m {
        m := x;
      }
      todo := todo - {x};
    }
  }

  /** Sorts a set of frame ids (the list sort the publisher applies). */
  method SortFrameIds(s: set<FrameId>) returns (r: seq<FrameId>)
    ensures r == SortedIds(s)
  {
    r := [];
    var rest := s;
    while rest != {}
      invariant r + SortedIds(rest) == SortedIds(s)
      decreases rest
    {
      var m := LeastOf(rest);
      assert m == Least(rest);
      assert SortedIds(rest) == [m] + SortedIds(rest - {m});
      assert (r + [m]) + SortedIds(rest - {m}) == r + SortedIds(rest);
      r := r + [m];
      rest := rest - {m};
    }
  }

  /** The transform record of one frame: from the world to the named frame,
      at the frame's world pose. */
  function TransformFor(q: QueryObject, stamp: Time, frameId: FrameId): (t: TransformStamped)
    requires frameId in q.inspector.frameNames && frameId in q.framePosesInWorld
    ensures t.header.frameId == "world" && t.header.stamp == stamp
    ensures t.childFrameId == q.inspector.frameNames[frameId]
    ensures t.transform == q.framePosesInWorld[frameId]
  {
    TransformStamped(Header(stamp, WORLD), q.inspector.frameNames[frameId], q.framePosesInWorld[frameId])
  }

  /** The ids of the frames the message covers, in message order. */
  ghost function TfFrameIds(q: QueryObject): (ids: seq<FrameId>)
    requires q.Valid()
    ensures forall k :: 0 <= k < |ids| ==> ids[k] in q.inspector.frameNames && ids[k] in q.framePosesInWorld
  {
    SortedFrameIdsNamed(q);
    SortedIds(q.inspector.FrameIds())
  }

  /** Every frame some geometry hangs on has a name and a world pose. */
  lemma FrameIdsNamed(q: QueryObject)
    requires q.Valid()
    ensures forall x :: x in q.inspector.FrameIds() ==> x in q.inspector.frameNames && x in q.framePosesInWorld
  {
    forall x | x in q.inspector.FrameIds()
      ensures x in q.inspector.frameNames && x in q.framePosesInWorld
    {
      var i :| 0 <= i < |q.inspector.geometries| && q.inspector.geometries[i].frameId == x;
    }
  }

  /** Every frame id in sorted order has a name and a world pose. */
  lemma SortedFrameIdsNamed(q: QueryObject)
    requires q.Valid()
    ensures forall k :: 0 <= k < |SortedIds(q.inspector.FrameIds())| ==>
              SortedIds(q.inspector.FrameIds())[k] in q.inspector.frameNames &&
              SortedIds(q.inspector.FrameIds())[k] in q.framePosesInWorld
  {
    var ids := SortedIds(q.inspector.FrameIds());
    SortedIdsElements(q.inspector.FrameIds());
    FrameIdsNamed(q);
    forall k | 0 <= k < |ids|
      ensures ids[k] in q.inspector.frameNames && ids[k] in q.framePosesInWorld
    {
      assert ids[k] in q.inspector.FrameIds();
    }
  }

  /** The TF message of a scene. */
  ghost function TfMessageOf(q: QueryObject, stamp: Time): (tf: TfMessage)
    requires q.Valid()
    ensures |tf.transforms| == |TfFrameIds(q)|
    ensures forall k :: 0 <= k < |tf.transforms| ==> tf.transforms[k] == TransformFor(q, stamp, TfFrameIds(q)[k])
  {
    var ids := TfFrameIds(q);
    TfMessage(seq(|ids|, k requires 0 <= k < |ids| => TransformFor(q, stamp, ids[k])))
  }

  /** The distinct frame ids of all geometries, gathered into a set. */
  method CollectFrameIds(insp: Inspector) returns (frameIds: set<FrameId>)
    ensures frameIds == insp.FrameIds()
  {
    var gs := insp.geometries;
    frameIds := {};
    var i := 0;
    while i < |gs|
      invariant 0 <= i <= |gs|
      invariant frameIds == insp.FrameIdsUpTo(i)
    {
      frameIds := frameIds + {gs[i].frameId};
      i := i + 1;
    }
  }

  /** Converts a scene to a TF message: collects the distinct frame ids of all
      geometries, sorts them, and emits one world-to-frame transform for each. */
  method ToRosTfMessage(q: QueryObject, stamp: Time) returns (tf: TfMessage)
    requires q.Valid()
    ensures tf == TfMessageOf(q, stamp)
  {
    var inspector := q.inspector;
    var frameIds := CollectFrameIds(inspector);
    var sortedIds := SortFrameIds(frameIds);
    assert sortedIds == TfFrameIds(q);
    tf := TfMessage([]);
    var k := 0;
    while k < |sortedIds|
      invariant 0 <= k <= |sortedIds|
      invariant |tf.transforms| == k
      invariant forall j :: 0 <= j < k ==> tf.transforms[j] == TransformFor(q, stamp, sortedIds[j])
    {
      var frameId := sortedIds[k];
      var transform := TransformStamped(Header(stamp, WORLD), inspector.frameNames[frameId], q.framePosesInWorld[frameId]);
      tf := tf.(transforms := tf.transforms + [transform]);
      k := k + 1;
    }
    assert tf.transforms == TfMessageOf(q, stamp).transforms;
  }

  /** The TF message holds one record per distinct frame that some geometry
      hangs on, no more records than geometries, ordered by strictly
      increasing frame id; each record goes from "world" to that frame's name,
      at the given stamp, with the frame's world pose. */
  lemma TfMessageFrames(q: QueryObject, stamp: Time)
    requires q.Valid()
    ensures var tf, ids, gs := TfMessageOf(q, stamp), TfFrameIds(q), q.inspector.geometries;
            && |tf.transforms| == |ids| == |q.inspector.FrameIds()| <= |gs|
            && StrictlyIncreasing(ids)
            && (forall i :: 0 <= i < |gs| ==> gs[i].frameId in ids)
            && (forall k :: 0 <= k < |ids| ==> exists i :: 0 <= i < |gs| && gs[i].frameId == ids[k])
            && forall k :: 0 <= k < |ids| ==>
                 && tf.transforms[k].header == Header(stamp, "world")
                 && tf.transforms[k].childFrameId == q.inspector.frameNames[ids[k]]
                 && tf.transforms[k].transform == q.framePosesInWorld[ids[k]]
  {
    var gs := q.inspector.geometries;
    var ids := TfFrameIds(q);
    SortedIdsOrdered(q.inspector.FrameIds());
    SortedIdsElements(q.inspector.FrameIds());
    forall i | 0 <= i < |gs|
      ensures gs[i].frameId in ids
    {
      assert gs[i].frameId in q.inspector.FrameIds();
    }
    forall k | 0 <= k < |ids|
      ensures exists i :: 0 <= i < |gs| && gs[i].frameId == ids[k]
    {
      assert ids[k] in q.inspector.FrameIds();
    }
    FrameIdsBound(q.inspector, |gs|);
  }

  /** The first n geometries hang on at most n distinct frames. */
  lemma {:induction false} FrameIdsBound(insp: Inspector, n: nat)
    requires insp.Valid() && n <= |insp.geometries|
    ensures |insp.FrameIdsUpTo(n)| <= n
  {
    if n > 0 {
      FrameIdsBound(insp, n - 1);
      UpToStep(insp, n - 1);
    }
  }

  /** When the scene's frame names are unique, the transforms of the TF
      message name pairwise distinct child frames. */
  lemma TfChildFramesDistinct(q: QueryObject, stamp: Time)
    requires q.Valid() && FrameNamesUnique(q.inspector)
    ensures var tf := TfMessageOf(q, stamp);
            forall j, k :: 0 <= j < k < |tf.transforms| ==> tf.transforms[j].childFrameId != tf.transforms[k].childFrameId
  {
    var gs := q.inspector.geometries;
    var ids := TfFrameIds(q);
    var tf := TfMessageOf(q, stamp);
    SortedIdsElements(q.inspector.FrameIds());
    forall j, k | 0 <= j < k < |tf.transforms|
      ensures tf.transforms[j].childFrameId != tf.transforms[k].childFrameId
    {
      assert ids[j] in ids && ids[k] in ids;
      assert ids[j] in q.inspector.FrameIds() && ids[k] in q.inspector.FrameIds();
      var a :| 0 <= a < |gs| && gs[a].frameId == ids[j];
      var b :| 0 <= b < |gs| && gs[b].frameId == ids[k];
      SortedIdsOrdered(q.inspector.FrameIds());
      assert ids[j] < ids[k];
    }
  }
}
