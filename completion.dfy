/** The win check of `IsLevelComplete`: the ledger must hold as many entries
    as the level's target pattern, and every target edge must be drawn, in
    either direction. */
module Completion {
  import opened PaintTypes
  import opened Ledger

  /** The value `IsLevelComplete` returns for a ledger and a target pattern. */
  predicate LevelComplete(ledger: seq<ConnectedLine>, pattern: seq<ConnectedLine>)
  {
    |pattern| == |ledger| &&
    forall i :: 0 <= i < |pattern| ==> Connected(ledger, pattern[i].startCoord, pattern[i].endCoord)
  }

  /** Without any assumption on the level data: complete means equal counts and
      every target edge among the drawn edges. */
  lemma CompleteIffCovered(ledger: seq<ConnectedLine>, pattern: seq<ConnectedLine>)
    ensures LevelComplete(ledger, pattern) <==>
              |ledger| == |pattern| && EdgeSet(pattern) <= EdgeSet(ledger)
  {
    forall i | 0 <= i < |pattern|
      ensures Connected(ledger, pattern[i].startCoord, pattern[i].endCoord) <==> Ends(pattern[i]) in EdgeSet(ledger)
    {
      ConnectedIffInEdgeSet(ledger, pattern[i].startCoord, pattern[i].endCoord);
    }
    if EdgeSet(pattern) <= EdgeSet(ledger) {
      forall i | 0 <= i < |pattern|
        ensures Ends(pattern[i]) in EdgeSet(ledger)
      {
        assert Ends(pattern[i]) in EdgeSet(pattern);
      }
    }
  }

  /** When neither the ledger nor the target pattern repeats an edge, the level is
      complete exactly when the drawn edges and the target edges are the same set,
      ignoring order and direction. */
  lemma CompleteIffSameEdges(ledger: seq<ConnectedLine>, pattern: seq<ConnectedLine>)
    requires NoDuplicateEdges(ledger)
    requires NoDuplicateEdges(pattern)
    ensures LevelComplete(ledger, pattern) <==> EdgeSet(ledger) == EdgeSet(pattern)
  {
    CompleteIffCovered(ledger, pattern);
    EdgeSetSize(ledger);
    EdgeSetSize(pattern);
    var drawn, target := EdgeSet(ledger), EdgeSet(pattern);
    if target <= drawn {
      assert drawn == target + (drawn - target);
      assert |drawn| == |target| + |drawn - target|;
    }
  }

  /** A count mismatch always means "not complete", even when every target edge is drawn. */
  lemma MismatchedCountNeverCompletes(ledger: seq<ConnectedLine>, pattern: seq<ConnectedLine>)
    requires |ledger| != |pattern|
    ensures !LevelComplete(ledger, pattern)
  {
  }

  /** A target pattern that lists one edge twice (once per direction) lets a ledger
      holding a stray edge count as complete: the equal-count check then no longer
      rules out extra edges. */
  lemma RepeatedTargetEdgeAdmitsStray(a: Coord, b: Coord, c: Coord, d: Coord)
    requires c != a && c != b
    ensures LevelComplete([ConnectedLine(a, b), ConnectedLine(c, d)], [ConnectedLine(a, b), ConnectedLine(b, a)])
    ensures EdgeSet([ConnectedLine(a, b), ConnectedLine(c, d)]) != EdgeSet([ConnectedLine(a, b), ConnectedLine(b, a)])
  {
    var ledger := [ConnectedLine(a, b), ConnectedLine(c, d)];
    var pattern := [ConnectedLine(a, b), ConnectedLine(b, a)];
    assert Joins(ledger[0], a, b) && Joins(ledger[0], b, a);
    assert Ends(ledger[1]) in EdgeSet(ledger);
    assert c in Ends(ledger[1]);
    assert Ends(ledger[1]) !in EdgeSet(pattern) by {
      forall i | 0 <= i < 2
        ensures Ends(pattern[i]) != Ends(ledger[1])
      {
        assert c !in Ends(pattern[i]);
      }
    }
  }
}
