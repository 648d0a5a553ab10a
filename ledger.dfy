/** The list of drawn connections (`inProgressPattern`) as values: undirected
    matching, the removal sweep of `ConnectionAlreadyDone` exactly as it is
    written, the add-or-remove toggle of `MoveBrush`, and the no-duplicates
    invariant under which the sweep removes exactly one entry. */
module Ledger {
  import opened PaintTypes

  /** `l` connects `a` and `b`, drawn in either direction. */
  predicate Joins(l: ConnectedLine, a: Coord, b: Coord)
  {
    (l.startCoord == a && l.endCoord == b) || (l.endCoord == a && l.startCoord == b)
  }

  /** `l` and `m` are the same edge up to direction. */
  predicate SameEdge(l: ConnectedLine, m: ConnectedLine)
  {
    Joins(m, l.startCoord, l.endCoord)
  }

  /** Some entry of the ledger connects `a` and `b`. */
  predicate Connected(s: seq<ConnectedLine>, a: Coord, b: Coord)
  {
    exists j :: 0 <= j < |s| && Joins(s[j], a, b)
  }

  /** No two entries of the ledger are the same edge up to direction. */
  predicate NoDuplicateEdges(s: seq<ConnectedLine>)
  {
    forall i, j :: 0 <= i < j < |s| ==> !SameEdge(s[i], s[j])
  }

  lemma ConnectedCons(s: seq<ConnectedLine>, a: Coord, b: Coord)
    requires s != []
    ensures Connected(s, a, b) <==> Joins(s[0], a, b) || Connected(s[1..], a, b)
  {
    if Connected(s, a, b) && !Joins(s[0], a, b) {
      var j :| 0 <= j < |s| && Joins(s[j], a, b);
      assert s[1..][j - 1] == s[j];
    }
    if Connected(s[1..], a, b) {
      var j :| 0 <= j < |s[1..]| && Joins(s[1..][j], a, b);
      assert s[j + 1] == s[1..][j];
    }
  }

  /** The ledger left by the index loop of `ConnectionAlreadyDone(a, b, true)`.
      `RemoveAt(i)` shifts the next entry down to index `i` and the loop then
      moves past it, so the entry right after a removed match is kept whatever
      it is. The sweep removes only matching entries, and removes at least one
      exactly when there is a match. */
  function RemoveAsWritten(s: seq<ConnectedLine>, a: Coord, b: Coord): (r: seq<ConnectedLine>)
    ensures |r| <= |s|
    ensures |r| < |s| <==> Connected(s, a, b)
    ensures !Connected(s, a, b) ==> r == s
    decreases |s|
  {
    if s == [] then []
    else
      ConnectedCons(s, a, b);
      if Joins(s[0], a, b) then
        if |s| == 1 then []
        else
          assert s == [s[0], s[1]] + s[2..];
          [s[1]] + RemoveAsWritten(s[2..], a, b)
      else
        assert s == [s[0]] + s[1..];
        [s[0]] + RemoveAsWritten(s[1..], a, b)
  }

  /** Connected distributes over concatenation. */
  lemma ConnectedAppend(s: seq<ConnectedLine>, t: seq<ConnectedLine>, a: Coord, b: Coord)
    ensures Connected(s + t, a, b) <==> Connected(s, a, b) || Connected(t, a, b)
  {
    if Connected(s + t, a, b) {
      var j :| 0 <= j < |s + t| && Joins((s + t)[j], a, b);
      if j >= |s| {
        assert t[j - |s|] == (s + t)[j];
      }
    }
    if Connected(s, a, b) {
      var j :| 0 <= j < |s| && Joins(s[j], a, b);
      assert (s + t)[j] == s[j];
    }
    if Connected(t, a, b) {
      var j :| 0 <= j < |t| && Joins(t[j], a, b);
      assert (s + t)[j + |s|] == t[j];
    }
  }

  /** The ledger `ConnectionAlreadyDone(a, b, removeItem)` leaves behind. */
  function Sweep(s: seq<ConnectedLine>, a: Coord, b: Coord, removeItem: bool): seq<ConnectedLine>
  {
    if removeItem then RemoveAsWritten(s, a, b) else s
  }

  /** One turn of the loop of `ConnectionAlreadyDone`, on the entry ahead of it. */
  lemma SweepCons(s: seq<ConnectedLine>, a: Coord, b: Coord, removeItem: bool)
    requires s != []
    ensures removeItem && Joins(s[0], a, b) && |s| == 1 ==> Sweep(s, a, b, removeItem) == []
    ensures removeItem && Joins(s[0], a, b) && |s| > 1 ==>
              Sweep(s, a, b, removeItem) == [s[1]] + Sweep(s[2..], a, b, removeItem)
    ensures !(removeItem && Joins(s[0], a, b)) ==>
              Sweep(s, a, b, removeItem) == [s[0]] + Sweep(s[1..], a, b, removeItem)
  {
    assert s == [s[0]] + s[1..];
  }

  /** The loop of `ConnectionAlreadyDone` passing one entry it keeps: the
      bookkeeping of what has been passed, what was kept and what is ahead. */
  lemma Advance(seen: seq<ConnectedLine>, kept: seq<ConnectedLine>, rest: seq<ConnectedLine>,
                a: Coord, b: Coord, removeItem: bool)
    requires rest != []
    requires !(removeItem && Joins(rest[0], a, b))
    ensures seen + rest == (seen + [rest[0]]) + rest[1..]
    ensures kept + rest == (kept + [rest[0]]) + rest[1..]
    ensures kept + Sweep(rest, a, b, removeItem) == (kept + [rest[0]]) + Sweep(rest[1..], a, b, removeItem)
    ensures Connected(seen + [rest[0]], a, b) <==> Connected(seen, a, b) || Joins(rest[0], a, b)
  {
    var x := rest[0];
    assert rest == [x] + rest[1..];
    SweepCons(rest, a, b, removeItem);
    ConnectedAppend(seen, [x], a, b);
    assert Connected([x], a, b) <==> Joins(x, a, b) by {
      assert [x][0] == x;
    }
  }

  /** The loop of `ConnectionAlreadyDone(a, b, true)` removing the matching entry
      ahead of it: the entry after it (if any) moves into its place and is passed
      over, so it is kept. */
  lemma RemoveTurn(seen: seq<ConnectedLine>, kept: seq<ConnectedLine>, rest: seq<ConnectedLine>,
                   a: Coord, b: Coord)
    requires rest != [] && Joins(rest[0], a, b)
    ensures |rest| == 1 ==> Connected(seen + rest, a, b) && kept + Sweep(rest, a, b, true) == kept
    ensures |rest| > 1 ==> Connected(seen + rest[..2], a, b)
    ensures |rest| > 1 ==> seen + rest == (seen + rest[..2]) + rest[2..]
    ensures |rest| > 1 ==> kept + rest[1..] == (kept + [rest[1]]) + rest[2..]
    ensures |rest| > 1 ==>
              kept + Sweep(rest, a, b, true) == (kept + [rest[1]]) + Sweep(rest[2..], a, b, true)
  {
    SweepCons(rest, a, b, true);
    if |rest| == 1 {
      assert (seen + rest)[|seen|] == rest[0];
    } else {
      assert (seen + rest[..2])[|seen|] == rest[0];
      assert rest == rest[..2] + rest[2..];
      assert rest[1..] == [rest[1]] + rest[2..];
    }
  }

  /** The sweep only ever drops entries that join `a` and `b`: no entry `l`
      occurs more often afterwards, and one that does not join them occurs
      exactly as often as before. */
  lemma {:induction false} RemoveAsWrittenOnlyMatches(s: seq<ConnectedLine>, a: Coord, b: Coord, l: ConnectedLine)
    ensures multiset(RemoveAsWritten(s, a, b))[l] <= multiset(s)[l]
    ensures !Joins(l, a, b) ==> multiset(RemoveAsWritten(s, a, b))[l] == multiset(s)[l]
    decreases |s|
  {
    if s != [] {
      var r := RemoveAsWritten(s, a, b);
      if Joins(s[0], a, b) {
        if |s| > 1 {
          var rest := RemoveAsWritten(s[2..], a, b);
          RemoveAsWrittenOnlyMatches(s[2..], a, b, l);
          assert s == [s[0]] + ([s[1]] + s[2..]);
          assert multiset(s)[l] == multiset{s[0]}[l] + multiset{s[1]}[l] + multiset(s[2..])[l];
          assert r == [s[1]] + rest;
          assert multiset(r)[l] == multiset{s[1]}[l] + multiset(rest)[l];
        }
      } else {
        var rest := RemoveAsWritten(s[1..], a, b);
        RemoveAsWrittenOnlyMatches(s[1..], a, b, l);
        assert s == [s[0]] + s[1..];
        assert multiset(s)[l] == multiset{s[0]}[l] + multiset(s[1..])[l];
        assert r == [s[0]] + rest;
        assert multiset(r)[l] == multiset{s[0]}[l] + multiset(rest)[l];
      }
    }
  }

  /** The skip quirk: of two adjacent entries that both match, the second survives. */
  lemma RemoveAsWrittenKeepsNeighbour(a: Coord, b: Coord)
    ensures RemoveAsWritten([ConnectedLine(a, b), ConnectedLine(b, a)], a, b) == [ConnectedLine(b, a)]
  {
    var s := [ConnectedLine(a, b), ConnectedLine(b, a)];
    assert s[2..] == [];
  }

  /** Under the invariant, a match at `j` is the only entry joining `a` and `b`. */
  lemma OnlyMatch(s: seq<ConnectedLine>, a: Coord, b: Coord, j: int)
    requires NoDuplicateEdges(s)
    requires 0 <= j < |s| && Joins(s[j], a, b)
    ensures forall k :: 0 <= k < |s| && k != j ==> !Joins(s[k], a, b)
  {
    forall k | 0 <= k < |s| && k != j
      ensures !Joins(s[k], a, b)
    {
      if k < j {
        assert !SameEdge(s[k], s[j]);
      } else {
        assert !SameEdge(s[j], s[k]);
      }
    }
  }

  /** Under the invariant, the sweep removes exactly the one matching entry and keeps the order of the rest. */
  lemma {:induction false} RemoveAsWrittenUnique(s: seq<ConnectedLine>, a: Coord, b: Coord, j: int)
    requires NoDuplicateEdges(s)
    requires 0 <= j < |s| && Joins(s[j], a, b)
    ensures RemoveAsWritten(s, a, b) == s[..j] + s[j + 1..]
    decreases |s|
  {
    OnlyMatch(s, a, b, j);
    if j == 0 {
      if |s| > 1 {
        forall k | 0 <= k < |s[2..]|
          ensures !Joins(s[2..][k], a, b)
        {
          assert s[2..][k] == s[k + 2];
        }
        assert s[1..] == [s[1]] + s[2..];
      }
    } else {
      assert NoDuplicateEdges(s[1..]) by {
        forall i, k | 0 <= i < k < |s[1..]|
          ensures !SameEdge(s[1..][i], s[1..][k])
        {
          assert s[1..][i] == s[i + 1] && s[1..][k] == s[k + 1];
        }
      }
      assert s[1..][j - 1] == s[j];
      RemoveAsWrittenUnique(s[1..], a, b, j - 1);
      assert s[1..][..j - 1] + s[1..][j..] == s[1..j] + s[j + 1..];
      assert [s[0]] + s[1..j] == s[..j];
    }
  }

  /** Deleting one entry keeps the invariant. */
  lemma NoDuplicateEdgesDelete(s: seq<ConnectedLine>, j: int)
    requires NoDuplicateEdges(s)
    requires 0 <= j < |s|
    ensures NoDuplicateEdges(s[..j] + s[j + 1..])
  {
    var r := s[..j] + s[j + 1..];
    forall i, k | 0 <= i < k < |r|
      ensures !SameEdge(r[i], r[k])
    {
      var i' := if i < j then i else i + 1;
      var k' := if k < j then k else k + 1;
      assert r[i] == s[i'] && r[k] == s[k'];
    }
  }

  /** Under the invariant, a removal sweep over a present edge shrinks the
      ledger by exactly one entry, leaves no entry for that edge, and keeps the invariant. */
  lemma RemoveAsWrittenDropsOne(s: seq<ConnectedLine>, a: Coord, b: Coord)
    requires NoDuplicateEdges(s)
    requires Connected(s, a, b)
    ensures |RemoveAsWritten(s, a, b)| == |s| - 1
    ensures !Connected(RemoveAsWritten(s, a, b), a, b)
    ensures NoDuplicateEdges(RemoveAsWritten(s, a, b))
  {
    var j :| 0 <= j < |s| && Joins(s[j], a, b);
    RemoveAsWrittenUnique(s, a, b, j);
    var r := s[..j] + s[j + 1..];
    NoDuplicateEdgesDelete(s, j);
    OnlyMatch(s, a, b, j);
    forall k | 0 <= k < |r|
      ensures !Joins(r[k], a, b)
    {
      var k' := if k < j then k else k + 1;
      assert r[k] == s[k'];
    }
  }

  /** A sweep over an edge that was appended last to a ledger without it gives back that ledger. */
  lemma {:induction false} RemoveAsWrittenAppended(s: seq<ConnectedLine>, l: ConnectedLine, a: Coord, b: Coord)
    requires !Connected(s, a, b)
    requires Joins(l, a, b)
    ensures RemoveAsWritten(s + [l], a, b) == s
    decreases |s|
  {
    if s == [] {
      assert [l][1..] == [];
    } else {
      ConnectedCons(s, a, b);
      assert (s + [l])[0] == s[0];
      assert (s + [l])[1..] == s[1..] + [l];
      RemoveAsWrittenAppended(s[1..], l, a, b);
      assert s == [s[0]] + s[1..];
    }
  }

  /** What one non-blocked swipe does to the ledger (lines 82-84): remove the
      edge if `ConnectionAlreadyDone(a, b, true)` finds it, otherwise append it. */
  function Toggle(s: seq<ConnectedLine>, a: Coord, b: Coord): seq<ConnectedLine>
  {
    if Connected(s, a, b) then RemoveAsWritten(s, a, b) else s + [ConnectedLine(a, b)]
  }

  /** Appending an edge the ledger lacks keeps the invariant. */
  lemma NoDuplicateEdgesAppend(s: seq<ConnectedLine>, a: Coord, b: Coord)
    requires NoDuplicateEdges(s)
    requires !Connected(s, a, b)
    ensures NoDuplicateEdges(s + [ConnectedLine(a, b)])
  {
    var r := s + [ConnectedLine(a, b)];
    forall i, k | 0 <= i < k < |r|
      ensures !SameEdge(r[i], r[k])
    {
      assert r[i] == s[i];
      if k == |s| {
        assert !Joins(s[i], a, b);
      } else {
        assert r[k] == s[k];
      }
    }
  }

  /** Under the invariant a toggle flips the presence of the edge: an absent
      edge is appended at the end (one entry longer), a present one is removed
      (one entry shorter, nothing appended); the invariant is kept. */
  lemma ToggleFlipsEdge(s: seq<ConnectedLine>, a: Coord, b: Coord)
    requires NoDuplicateEdges(s)
    ensures NoDuplicateEdges(Toggle(s, a, b))
    ensures Connected(Toggle(s, a, b), a, b) <==> !Connected(s, a, b)
    ensures !Connected(s, a, b) ==> Toggle(s, a, b) == s + [ConnectedLine(a, b)]
    ensures Connected(s, a, b) ==> |Toggle(s, a, b)| == |s| - 1
  {
    if Connected(s, a, b) {
      RemoveAsWrittenDropsOne(s, a, b);
    } else {
      NoDuplicateEdgesAppend(s, a, b);
      var r := s + [ConnectedLine(a, b)];
      assert Joins(r[|s|], a, b);
    }
  }

  /** Drawing a new edge and then retracing it backwards restores the exact ledger. */
  lemma ToggleThereAndBack(s: seq<ConnectedLine>, a: Coord, b: Coord)
    requires !Connected(s, a, b)
    ensures Toggle(Toggle(s, a, b), b, a) == s
  {
    var r := s + [ConnectedLine(a, b)];
    assert Joins(r[|s|], b, a);
    forall j | 0 <= j < |s|
      ensures !Joins(s[j], b, a)
    {
      assert !Joins(s[j], a, b);
    }
    RemoveAsWrittenAppended(s, ConnectedLine(a, b), b, a);
  }

  /** The two endpoints of a line, forgetting its direction. */
  function Ends(l: ConnectedLine): set<Coord>
  {
    {l.startCoord, l.endCoord}
  }

  /** Two lines are the same edge exactly when they have the same endpoints. */
  lemma SameEdgeIffEnds(l: ConnectedLine, m: ConnectedLine)
    ensures SameEdge(l, m) <==> Ends(l) == Ends(m)
  {
    if Ends(l) == Ends(m) {
      var a, b, c, d := l.startCoord, l.endCoord, m.startCoord, m.endCoord;
      assert a in {c, d} && b in {c, d} && c in {a, b} && d in {a, b};
    }
  }

  /** The ledger's edges, each as its set of endpoints: order and direction forgotten. */
  function EdgeSet(s: seq<ConnectedLine>): set<set<Coord>>
  {
    set i | 0 <= i < |s| :: Ends(s[i])
  }

  /** An edge is in the ledger exactly when its endpoints are in the edge set. */
  lemma ConnectedIffInEdgeSet(s: seq<ConnectedLine>, a: Coord, b: Coord)
    ensures Connected(s, a, b) <==> {a, b} in EdgeSet(s)
  {
    var l := ConnectedLine(a, b);
    if Connected(s, a, b) {
      var j :| 0 <= j < |s| && Joins(s[j], a, b);
      SameEdgeIffEnds(l, s[j]);
    }
    if {a, b} in EdgeSet(s) {
      var j :| 0 <= j < |s| && Ends(s[j]) == {a, b};
      SameEdgeIffEnds(l, s[j]);
    }
  }

  /** Under the invariant the edge set has one element per entry. */
  lemma {:induction false} EdgeSetSize(s: seq<ConnectedLine>)
    requires NoDuplicateEdges(s)
    ensures |EdgeSet(s)| == |s|
    decreases |s|
  {
    if s != [] {
      var n := |s| - 1;
      var p := s[..n];
      assert NoDuplicateEdges(p) by {
        forall i, k | 0 <= i < k < |p|
          ensures !SameEdge(p[i], p[k])
        {
          assert p[i] == s[i] && p[k] == s[k];
        }
      }
      EdgeSetSize(p);
      assert EdgeSet(s) == EdgeSet(p) + {Ends(s[n])} by {
        forall e | e in EdgeSet(s)
          ensures e in EdgeSet(p) + {Ends(s[n])}
        {
          var i :| 0 <= i < |s| && Ends(s[i]) == e;
          if i < n {
            assert p[i] == s[i];
          }
        }
        forall e | e in EdgeSet(p)
          ensures e in EdgeSet(s)
        {
          var i :| 0 <= i < |p| && Ends(p[i]) == e;
          assert s[i] == p[i];
        }
      }
      forall i | 0 <= i < |p|
        ensures Ends(p[i]) != Ends(s[n])
      {
        assert p[i] == s[i];
        SameEdgeIffEnds(s[i], s[n]);
      }
    }
  }

  /** Retracing an edge that was already drawn (remove, then add back reversed)
      gives the ledger its old edges back, though not its old order. */
  lemma ToggleBackSameEdges(s: seq<ConnectedLine>, a: Coord, b: Coord)
    requires NoDuplicateEdges(s)
    requires Connected(s, a, b)
    ensures |Toggle(Toggle(s, a, b), b, a)| == |s|
    ensures EdgeSet(Toggle(Toggle(s, a, b), b, a)) == EdgeSet(s)
    ensures Toggle(Toggle(s, a, b), b, a)[|s| - 1] == ConnectedLine(b, a)
  {
    var j :| 0 <= j < |s| && Joins(s[j], a, b);
    RemoveAsWrittenDropsOne(s, a, b);
    RemoveAsWrittenUnique(s, a, b, j);
    var r := s[..j] + s[j + 1..];
    forall k | 0 <= k < |r|
      ensures !Joins(r[k], b, a)
    {
      assert !Joins(r[k], a, b);
    }
    var t := r + [ConnectedLine(b, a)];
    assert Toggle(Toggle(s, a, b), b, a) == t;
    SameEdgeIffEnds(ConnectedLine(b, a), s[j]);
    forall e | e in EdgeSet(t)
      ensures e in EdgeSet(s)
    {
      var i :| 0 <= i < |t| && Ends(t[i]) == e;
      var i' := if i == |r| then j else if i < j then i else i + 1;
      assert Ends(s[i']) == e;
    }
    forall e | e in EdgeSet(s)
      ensures e in EdgeSet(t)
    {
      var i :| 0 <= i < |s| && Ends(s[i]) == e;
      var i' := if i == j then |r| else if i < j then i else i - 1;
      assert Ends(t[i']) == e;
    }
  }
}
