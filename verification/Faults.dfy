/** A script of fault points that fire once each, in the declared order. */
module Faults {

  datatype FaultPoint =
    | BeforeAdmission
    | AfterAdmission
    | BeforeTerminal
    | AfterTerminal
    | BeforeRelease
    | CorruptStagedBeforeVerification
    | BeforeFileSync
    | BeforeVisibility
    | AfterNoClobberVisibility
    | BeforeVisibleFileSync
    | BeforeParentSync
    | AfterVisibilityBeforeParentSync

  predicate Fires(points: seq<FaultPoint>, point: FaultPoint) {
    points != [] && points[0] == point
  }

  function AfterHit(points: seq<FaultPoint>, point: FaultPoint): seq<FaultPoint> {
    if Fires(points, point) then points[1..] else points
  }

  class FaultScript {
    var points: seq<FaultPoint>

    constructor (points: seq<FaultPoint>)
      ensures this.points == points
    {
      this.points := points;
    }

    method Hit(point: FaultPoint) returns (fired: bool)
      modifies this
      ensures fired == Fires(old(points), point)
      ensures points == AfterHit(old(points), point)
    {
      if |points| > 0 && points[0] == point {
        points := points[1..];
        return true;
      }
      return false;
    }
  }

  /** What is left of a script after a list of queries. */
  function Drain(points: seq<FaultPoint>, queries: seq<FaultPoint>): (rest: seq<FaultPoint>)
    ensures |rest| <= |points|
  {
    if queries == [] then points else Drain(AfterHit(points, queries[0]), queries[1..])
  }

  /** `a` can be found in `q` in order, not necessarily in one piece. */
  predicate Embeds(a: seq<FaultPoint>, q: seq<FaultPoint>) {
    a == [] || (q != [] && (Embeds(a, q[1..]) || (a[0] == q[0] && Embeds(a[1..], q[1..]))))
  }

  lemma {:induction false} EmbedsTail(a: seq<FaultPoint>, q: seq<FaultPoint>)
    requires a != [] && Embeds(a, q)
    ensures Embeds(a[1..], q)
  {
    if Embeds(a, q[1..]) {
      EmbedsTail(a, q[1..]);
    }
  }

  /** A query that matches can always be matched at once, and one that does not can be skipped. */
  lemma EmbedsGreedily(a: seq<FaultPoint>, q: seq<FaultPoint>)
    requires a != [] && q != []
    ensures Embeds(a, q) == if a[0] == q[0] then Embeds(a[1..], q[1..]) else Embeds(a, q[1..])
  {
    if a[0] == q[0] && Embeds(a, q[1..]) {
      EmbedsTail(a, q[1..]);
    }
  }

  /** The faults that fire are exactly the longest prefix of the script that embeds in the queries. */
  lemma {:induction false} FiresLongestEmbeddedPrefix(points: seq<FaultPoint>, queries: seq<FaultPoint>, j: nat)
    requires j <= |points|
    ensures var k := |points| - |Drain(points, queries)|;
            && Drain(points, queries) == points[k..]
            && (Embeds(points[..j], queries) <==> j <= k)
    decreases |queries|
  {
    if queries != [] {
      var rest := AfterHit(points, queries[0]);
      if Fires(points, queries[0]) {
        FiresLongestEmbeddedPrefix(rest, queries[1..], if j == 0 then 0 else j - 1);
        if j > 0 {
          EmbedsGreedily(points[..j], queries);
          assert points[..j][1..] == rest[..j - 1];
        }
      } else {
        FiresLongestEmbeddedPrefix(rest, queries[1..], j);
        if j > 0 {
          EmbedsGreedily(points[..j], queries);
        }
      }
    }
  }
}
