/** The fallback selector used when the reply names no usable point: a fixed
    list of conventional points in three tiers, with the points already
    played left out. */
module Fallback {
  import opened Common

  /** The nine star points. */
  const StarPoints: seq<(int, int)> :=
    [(3, 3), (3, 9), (3, 15), (9, 3), (9, 9), (9, 15), (15, 3), (15, 9), (15, 15)]

  /** Eight points next to the corner star points. */
  const SmallEyePoints: seq<(int, int)> :=
    [(3, 4), (4, 3), (3, 16), (4, 17), (16, 3), (17, 4), (16, 17), (17, 16)]

  /** Nine further common points; (15, 15) repeats a star point. */
  const OtherPoints: seq<(int, int)> :=
    [(2, 2), (2, 16), (16, 2), (16, 16), (10, 10), (5, 5), (5, 15), (15, 5), (15, 15)]

  predicate OnBoard(p: (int, int)) {
    0 <= p.0 < 19 && 0 <= p.1 < 19
  }

  predicate AllOnBoard(pts: seq<(int, int)>) {
    forall k :: 0 <= k < |pts| ==> OnBoard(pts[k])
  }

  lemma TiersOnBoard()
    ensures forall p :: p in StarPoints ==> OnBoard(p)
    ensures forall p :: p in SmallEyePoints ==> OnBoard(p)
    ensures forall p :: p in OtherPoints ==> OnBoard(p)
  {
    assert AllOnBoard(StarPoints);
    assert AllOnBoard(SmallEyePoints);
    assert AllOnBoard(OtherPoints);
  }

  /** A point is a candidate when it is not among the played points. */
  function Unplayed(occupied: seq<(int, int)>): ((int, int)) -> bool {
    p => p !in occupied
  }

  /** `get_smart_fallback_positions` over the list of played points: star
      points, then the points next to them, then the other points, each list
      in its own order, skipping every played point. */
  function FallbackPositions(occupied: seq<(int, int)>): (r: seq<(int, int)>)
    ensures forall p :: p in r ==> p !in occupied
    ensures forall p :: p in r ==> OnBoard(p)
  {
    var stars := Filter(StarPoints, Unplayed(occupied));
    var eyes := Filter(SmallEyePoints, Unplayed(occupied));
    var others := Filter(OtherPoints, Unplayed(occupied));
    TiersOnBoard();
    assert forall p :: p in stars ==> p !in occupied && OnBoard(p);
    assert forall p :: p in eyes ==> p !in occupied && OnBoard(p);
    assert forall p :: p in others ==> p !in occupied && OnBoard(p);
    stars + eyes + others
  }

  /** Exactly the listed points that are not played are offered. */
  lemma FallbackMembers(occupied: seq<(int, int)>, p: (int, int))
    ensures p in FallbackPositions(occupied) <==> (p in StarPoints || p in SmallEyePoints || p in OtherPoints) && p !in occupied
  {
    var free := Unplayed(occupied);
    var stars := Filter(StarPoints, free);
    var eyes := Filter(SmallEyePoints, free);
    var others := Filter(OtherPoints, free);
    assert p in stars + eyes + others <==> p in stars || p in eyes || p in others;
  }

  /** The three lists are visited in declaration order: the fallback list is
      the single declared list of 26 points with the played ones removed. */
  lemma FallbackInDeclarationOrder(occupied: seq<(int, int)>)
    ensures FallbackPositions(occupied) == Filter(StarPoints + SmallEyePoints + OtherPoints, Unplayed(occupied))
  {
    FilterAppend(StarPoints + SmallEyePoints, OtherPoints, Unplayed(occupied));
    FilterAppend(StarPoints, SmallEyePoints, Unplayed(occupied));
  }

  lemma CornerIsOneStarPoint()
    ensures multiset(StarPoints)[(15, 15)] == 1
  {
  }

  lemma CornerIsNoSmallEyePoint()
    ensures multiset(SmallEyePoints)[(15, 15)] == 0
  {
  }

  lemma CornerIsOneOtherPoint()
    ensures multiset(OtherPoints)[(15, 15)] == 1
  {
  }

  /** (15, 15) is both a star point and one of the other points, so while it
      is unplayed it is offered twice. */
  lemma FallbackRepeatsCornerPoint(occupied: seq<(int, int)>)
    requires (15, 15) !in occupied
    ensures multiset(FallbackPositions(occupied))[(15, 15)] == 2
  {
    var free := Unplayed(occupied);
    var stars := Filter(StarPoints, free);
    var eyes := Filter(SmallEyePoints, free);
    var others := Filter(OtherPoints, free);
    CornerIsOneStarPoint();
    CornerIsNoSmallEyePoint();
    CornerIsOneOtherPoint();
    assert multiset(stars + eyes + others) == multiset(stars) + multiset(eyes) + multiset(others);
  }

  lemma NothingPlayedKeepsAll(pts: seq<(int, int)>)
    ensures Filter(pts, Unplayed([])) == pts
  {
    var free := Unplayed([]);
    assert forall x :: free(x);
    FilterKeepsAll(pts, free);
  }

  /** With nothing played, all 26 listed points are offered. */
  lemma FallbackOnEmptyBoard()
    ensures FallbackPositions([]) == StarPoints + SmallEyePoints + OtherPoints
  {
    FallbackInDeclarationOrder([]);
    NothingPlayedKeepsAll(StarPoints + SmallEyePoints + OtherPoints);
  }

  /** While (3, 3) is unplayed it is the first point offered. */
  lemma FirstWhileCornerStarFree(occupied: seq<(int, int)>)
    requires (3, 3) !in occupied
    ensures |FallbackPositions(occupied)| > 0 && FallbackPositions(occupied)[0] == (3, 3)
  {
    var free := Unplayed(occupied);
    assert StarPoints == [(3, 3)] + StarPoints[1..];
    FilterAppend([(3, 3)], StarPoints[1..], free);
    FilterSingleton((3, 3), free);
  }
}
