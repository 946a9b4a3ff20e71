/**
  The bounded trail of updateTrails: each body keeps the last MAX_TRAIL
  positions it was drawn at, oldest first.
 */
module Trails {
  import opened Bodies

  const MAX_TRAIL: nat := 260

  /**
    Append p; if the trail then holds more than MAX_TRAIL points, drop the
    oldest one. A trail within the bound stays within it, ends at p, and keeps
    the order of the points it retains.
   */
  function TrailPush(trail: seq<Vec>, p: Vec): (t: seq<Vec>)
    ensures |trail| < MAX_TRAIL ==> t == trail + [p]
    ensures |trail| >= MAX_TRAIL ==> t == trail[1..] + [p]
    ensures |trail| <= MAX_TRAIL ==> |t| <= MAX_TRAIL
    ensures |t| > 0 && t[|t| - 1] == p
  {
    var pushed := trail + [p];
    if |pushed| > MAX_TRAIL then pushed[1..] else pushed
  }

  /** Every body appends its current position to its trail; nothing else changes. */
  function TrailsUpdated(bs: seq<Body>): (out: seq<Body>)
    ensures |out| == |bs|
    ensures forall k :: 0 <= k < |bs| ==>
      out[k].m == bs[k].m && out[k].r == bs[k].r && out[k].v == bs[k].v
  {
    seq(|bs|, k requires 0 <= k < |bs| => bs[k].(trail := TrailPush(bs[k].trail, bs[k].r)))
  }

  ghost predicate TrailsBounded(bs: seq<Body>) {
    forall k :: 0 <= k < |bs| ==> |bs[k].trail| <= MAX_TRAIL
  }

  /**
    After an update every trail is within the bound and ends at the body's
    current position; a trail that was full loses exactly its oldest point,
    any other grows by one.
   */
  lemma TrailsUpdatedEndAtPositions(bs: seq<Body>)
    requires TrailsBounded(bs)
    ensures TrailsBounded(TrailsUpdated(bs))
    ensures forall k :: 0 <= k < |bs| ==>
      var t := TrailsUpdated(bs)[k].trail;
      |t| > 0 && t[|t| - 1] == bs[k].r &&
      (|bs[k].trail| == MAX_TRAIL ==> t == bs[k].trail[1..] + [bs[k].r]) &&
      (|bs[k].trail| < MAX_TRAIL ==> t == bs[k].trail + [bs[k].r])
  {
  }
}
