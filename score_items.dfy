/**
 * The list of (player id, score) items that BasicScore keeps, as a value,
 * and the operations on it: lookup, the score query, the remove-then-append
 * change of one item, the sum of all scores and the all-zero start.
 */
module ScoreItems {
  import opened Wrappers
  import opened Geometry

  datatype ScoreItem = ScoreItem(playerId: PlayerId, score: int)

  /** Some item carries this id. */
  predicate Registered(items: seq<ScoreItem>, id: PlayerId)
  {
    exists i :: 0 <= i < |items| && items[i].playerId == id
  }

  /** No two items carry the same id. */
  predicate DistinctIds(items: seq<ScoreItem>)
  {
    forall i, j :: 0 <= i < j < |items| ==> items[i].playerId != items[j].playerId
  }

  /** No two players of a roster carry the same id. */
  predicate Distinct(players: seq<PlayerId>)
  {
    forall i, j :: 0 <= i < j < |players| ==> players[i] != players[j]
  }

  /** The position of the first item for `id`, as `getScoreItem` scans for it. */
  function Find(items: seq<ScoreItem>, id: PlayerId): (r: Option<nat>)
    ensures r.Some? ==> r.value < |items| && items[r.value].playerId == id
    ensures r.Some? ==> forall j :: 0 <= j < r.value ==> items[j].playerId != id
    ensures r.None? <==> !Registered(items, id)
  {
    if items == [] then None
    else if items[0].playerId == id then Some(0)
    else
      match Find(items[1..], id)
      case None =>
        assert forall j :: 1 <= j < |items| ==> items[j] == items[1..][j - 1];
        None
      case Some(i) => Some(i + 1)
  }

  /** The score reported for `id`: that of its first item, 0 when there is none. */
  function Points(items: seq<ScoreItem>, id: PlayerId): (p: int)
    ensures !Registered(items, id) ==> p == 0
    ensures DistinctIds(items) ==>
              forall i :: 0 <= i < |items| && items[i].playerId == id ==> p == items[i].score
  {
    match Find(items, id)
    case Some(i) => items[i].score
    case None => 0
  }

  /**
   * `ArrayList.remove(Object)`: drops the first element equal to `x`;
   * None stands for `remove` returning false.
   */
  function RemoveFirst(items: seq<ScoreItem>, x: ScoreItem): (r: Option<seq<ScoreItem>>)
    ensures r.None? <==> x !in items
    ensures r.Some? ==> multiset(r.value) + multiset{x} == multiset(items)
  {
    if items == [] then None
    else if items[0] == x then
      assert items == [x] + items[1..];
      Some(items[1..])
    else
      match RemoveFirst(items[1..], x)
      case None =>
        assert items == [items[0]] + items[1..];
        None
      case Some(rest) =>
        assert items == [items[0]] + items[1..];
        Some([items[0]] + rest)
  }

  /** Removing an element that occurs nowhere before position i removes position i. */
  lemma {:induction false} RemoveFirstAt(items: seq<ScoreItem>, i: nat)
    requires i < |items|
    requires items[i] !in items[..i]
    ensures RemoveFirst(items, items[i]) == Some(items[..i] + items[i + 1..])
  {
    if i > 0 {
      assert items[0] in items[..i];
      assert items[1..][i - 1] == items[i];
      assert items[1..][..i - 1] == items[1..i];
      assert items[i] !in items[1..][..i - 1] by {
        assert forall y :: y in items[1..i] ==> y in items[..i];
      }
      RemoveFirstAt(items[1..], i - 1);
      assert items[0] != items[i];
      assert items[1..][i..] == items[i + 1..];
      assert [items[0]] + (items[1..][..i - 1] + items[1..][i..]) == items[..i] + items[i + 1..];
    } else {
      assert items[..0] + items[1..] == items[1..];
    }
  }

  /** The item at position i moved to the end, its score moved by `points`. */
  function MoveToEnd(items: seq<ScoreItem>, i: nat, points: int): (r: seq<ScoreItem>)
    requires i < |items|
    ensures |r| == |items|
    ensures forall q :: Registered(r, q) <==> Registered(items, q)
    ensures r[|r| - 1] == ScoreItem(items[i].playerId, items[i].score + points)
  {
    var r := items[..i] + items[i + 1..] + [ScoreItem(items[i].playerId, items[i].score + points)];
    assert forall q :: Registered(r, q) <==> Registered(items, q) by {
      forall q
        ensures Registered(r, q) <==> Registered(items, q)
      {
        if Registered(items, q) {
          var j :| 0 <= j < |items| && items[j].playerId == q;
          var k := if j < i then j else if j == i then |r| - 1 else j - 1;
          assert r[k].playerId == q;
        }
        if Registered(r, q) {
          var k :| 0 <= k < |r| && r[k].playerId == q;
          var j := if k < i then k else if k == |r| - 1 then i else k + 1;
          assert items[j].playerId == q;
        }
      }
    }
    r
  }

  /** The points `decrementPoints` hands on to `changePoints`: `-1 * amount`. */
  function Debit(amount: int): (d: int)
    ensures d + amount == 0
  {
    -1 * amount
  }

  /**
   * `changePoints`: the first item for `id` is removed and an item with its
   * score moved by `points` is appended; an unknown id changes nothing.
   */
  function Changed(items: seq<ScoreItem>, id: PlayerId, points: int): (r: seq<ScoreItem>)
    ensures |r| == |items|
    ensures forall q :: Registered(r, q) <==> Registered(items, q)
    ensures !Registered(items, id) ==> r == items
    ensures Registered(items, id) ==> r[|r| - 1] == ScoreItem(id, Points(items, id) + points)
  {
    match Find(items, id)
    case None => items
    case Some(i) => MoveToEnd(items, i, points)
  }

  /**
   * `changePoints` as the source writes it (remove the item `getScoreItem`
   * found, then append the changed one) computes `Changed`.
   */
  lemma {:induction false} RemoveThenAppend(items: seq<ScoreItem>, id: PlayerId, points: int, x: ScoreItem)
    requires Find(items, id).Some? && x == items[Find(items, id).value]
    ensures RemoveFirst(items, x).Some?
    ensures Changed(items, id, points) == RemoveFirst(items, x).value + [ScoreItem(x.playerId, x.score + points)]
  {
    var i := Find(items, id).value;
    assert items[i] !in items[..i] by {
      forall j | 0 <= j < i
        ensures items[..i][j] != items[i]
      {
        assert items[j].playerId != id;
      }
    }
    RemoveFirstAt(items, i);
    assert Changed(items, id, points) == MoveToEnd(items, i, points);
  }

  /** The sum of all scores. */
  function Total(items: seq<ScoreItem>): int
  {
    if items == [] then 0 else Total(items[..|items| - 1]) + items[|items| - 1].score
  }

  lemma {:induction false} TotalAppend(a: seq<ScoreItem>, b: seq<ScoreItem>)
    ensures Total(a + b) == Total(a) + Total(b)
  {
    if b == [] {
      assert a + b == a;
    } else {
      assert (a + b)[..|a + b| - 1] == a + b[..|b| - 1];
      TotalAppend(a, b[..|b| - 1]);
    }
  }

  /** A change moves the total by `points` exactly when the id is registered. */
  lemma {:induction false} TotalChanged(items: seq<ScoreItem>, id: PlayerId, points: int)
    ensures Total(Changed(items, id, points)) ==
            Total(items) + (if Registered(items, id) then points else 0)
  {
    match Find(items, id)
    case None =>
    case Some(i) =>
      var x := ScoreItem(items[i].playerId, items[i].score + points);
      assert Total([items[i]]) == items[i].score by { assert [items[i]][..0] == []; }
      assert Total([x]) == x.score by { assert [x][..0] == []; }
      assert items == items[..i] + [items[i]] + items[i + 1..];
      TotalAppend(items[..i] + [items[i]], items[i + 1..]);
      TotalAppend(items[..i], [items[i]]);
      TotalAppend(items[..i], items[i + 1..]);
      TotalAppend(items[..i] + items[i + 1..], [x]);
  }

  /** A change never makes two items share an id. */
  lemma {:induction false} ChangedKeepsDistinct(items: seq<ScoreItem>, id: PlayerId, points: int)
    requires DistinctIds(items)
    ensures DistinctIds(Changed(items, id, points))
  {
    match Find(items, id)
    case None =>
    case Some(i) =>
      var r := Changed(items, id, points);
      forall a, b | 0 <= a < b < |r|
        ensures r[a].playerId != r[b].playerId
      {
        var a' := if a < i then a else a + 1;
        assert r[a] == items[a'];
        if b < |r| - 1 {
          var b' := if b < i then b else b + 1;
          assert r[b] == items[b'];
        } else {
          assert r[b].playerId == items[i].playerId;
        }
      }
  }

  /** Only the changed player's score moves, and by exactly `points`. */
  lemma {:induction false} PointsChanged(items: seq<ScoreItem>, id: PlayerId, points: int, q: PlayerId)
    requires DistinctIds(items)
    ensures Points(Changed(items, id, points), q) ==
            Points(items, q) + (if q == id && Registered(items, id) then points else 0)
  {
    ChangedKeepsDistinct(items, id, points);
    var r := Changed(items, id, points);
    match Find(items, id)
    case None =>
    case Some(i) =>
      if q == id {
        assert r[|r| - 1].playerId == q;
      } else if Registered(items, q) {
        var j :| 0 <= j < |items| && items[j].playerId == q;
        var k := if j < i then j else j - 1;
        assert r[k] == items[j];
      }
  }

  /** Changing the last item, whose id occurs nowhere before it, rewrites that item in place. */
  lemma {:induction false} ChangedLast(rest: seq<ScoreItem>, x: ScoreItem, points: int)
    requires forall j :: 0 <= j < |rest| ==> rest[j].playerId != x.playerId
    ensures Changed(rest + [x], x.playerId, points) == rest + [ScoreItem(x.playerId, x.score + points)]
  {
    var s := rest + [x];
    assert s[|rest|].playerId == x.playerId;
    assert Find(s, x.playerId) == Some(|rest|);
    assert s[..|rest|] == rest;
    assert s[|rest| + 1..] == [];
  }

  /** A change of a registered id removes its first item and appends the changed one. */
  lemma {:induction false} ChangedAt(items: seq<ScoreItem>, id: PlayerId, points: int, i: nat)
    requires Find(items, id) == Some(i)
    ensures Changed(items, id, points) == items[..i] + items[i + 1..] + [ScoreItem(id, items[i].score + points)]
  {
    assert Changed(items, id, points) == MoveToEnd(items, i, points);
  }

  /** With distinct ids, removing the item for `id` leaves no item for `id`. */
  lemma {:induction false} RemovedIdAbsent(items: seq<ScoreItem>, id: PlayerId, i: nat)
    requires DistinctIds(items)
    requires Find(items, id) == Some(i)
    ensures var rest := items[..i] + items[i + 1..];
            forall j :: 0 <= j < |rest| ==> rest[j].playerId != id
  {
    var rest := items[..i] + items[i + 1..];
    forall j | 0 <= j < |rest|
      ensures rest[j].playerId != id
    {
      if j < i { assert rest[j] == items[j]; } else { assert rest[j] == items[j + 1]; }
    }
  }

  /**
   * `incrementPoints` then `decrementPoints` by the same amount gives the
   * list a change by 0 gives: the item moved to the end, its score as before.
   */
  lemma {:induction false} IncrementThenDecrement(items: seq<ScoreItem>, id: PlayerId, amount: int)
    requires DistinctIds(items)
    ensures Changed(Changed(items, id, amount), id, Debit(amount)) == Changed(items, id, 0)
  {
    var found := Find(items, id);
    if found.Some? {
      var i := found.value;
      var rest := items[..i] + items[i + 1..];
      ChangedAt(items, id, amount, i);
      ChangedAt(items, id, 0, i);
      RemovedIdAbsent(items, id, i);
      ChangedLast(rest, ScoreItem(id, items[i].score + amount), Debit(amount));
    }
  }

  /** After `incrementPoints` then `decrementPoints` by the same amount every score is as before. */
  lemma {:induction false} IncrementThenDecrementPoints(items: seq<ScoreItem>, id: PlayerId, amount: int, q: PlayerId)
    requires DistinctIds(items)
    ensures Points(Changed(Changed(items, id, amount), id, Debit(amount)), q) == Points(items, q)
  {
    IncrementThenDecrement(items, id, amount);
    PointsChanged(items, id, 0, q);
  }

  /** The list the constructor builds: one zero item per roster player, in order. */
  function ZeroScores(players: seq<PlayerId>): (r: seq<ScoreItem>)
    ensures |r| == |players|
    ensures forall i :: 0 <= i < |players| ==> r[i] == ScoreItem(players[i], 0)
  {
    if players == [] then []
    else ZeroScores(players[..|players| - 1]) + [ScoreItem(players[|players| - 1], 0)]
  }

  /** The starting list holds exactly the roster's ids. */
  lemma {:induction false} ZeroScoresRoster(players: seq<PlayerId>)
    ensures forall q :: Registered(ZeroScores(players), q) <==> q in players
  {
    var r := ZeroScores(players);
    forall q
      ensures Registered(r, q) <==> q in players
    {
      if q in players {
        var i :| 0 <= i < |players| && players[i] == q;
        assert r[i].playerId == q;
      }
    }
  }

  /** The starting list repeats no id exactly when the roster repeats none. */
  lemma {:induction false} ZeroScoresDistinct(players: seq<PlayerId>)
    ensures Distinct(players) <==> DistinctIds(ZeroScores(players))
  {
    var r := ZeroScores(players);
    assert forall i :: 0 <= i < |players| ==> r[i].playerId == players[i];
  }

  /** Every score of the starting list is 0. */
  lemma {:induction false} ZeroScoresPoints(players: seq<PlayerId>, q: PlayerId)
    ensures Points(ZeroScores(players), q) == 0
  {
    var r := ZeroScores(players);
    match Find(r, q)
    case None =>
    case Some(i) => assert r[i].score == 0;
  }

  /** The scores of the starting list sum to 0. */
  lemma {:induction false} ZeroScoresTotal(players: seq<PlayerId>)
    ensures Total(ZeroScores(players)) == 0
  {
    if players != [] {
      ZeroScoresTotal(players[..|players| - 1]);
    }
  }
}
