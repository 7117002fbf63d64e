/**
 * How BasicScore's list evolves: the initial scan of the board, the change
 * notifications it reacts to, and the proof that updating incrementally
 * gives every player what a fresh scan of the changed board would give.
 */
module Tracking {
  import opened Wrappers
  import opened Geometry
  import opened ScoreItems

  /**
   * What `update(Observable o, Object arg)` receives: a node together with
   * the previous occupant when `arg` is a String (None for any other arg,
   * null included), or a source that is not a node.
   */
  datatype Event = NodeEvent(node: Node, previous: Option<PlayerId>) | OtherEvent

  /**
   * What `update` passes to `notifyObservers`: nothing at all, or the list of
   * affected ids (None stands for a null id).
   */
  datatype Notice = NoNotice | Notify(playerIds: seq<Option<PlayerId>>)

  /** An occupied node credits its occupant with its weight; a free node does nothing. */
  function Credit(board: Board, dirs: seq<Direction>, items: seq<ScoreItem>, n: Node): (r: seq<ScoreItem>)
    ensures |r| == |items|
    ensures n.occupant.None? || !Registered(items, n.occupant.value) ==> r == items
  {
    match n.occupant
    case None => items
    case Some(p) => Changed(items, p, Weight(board, dirs, n))
  }

  /** `setInitialScore`: credit every node of `ns` in turn. */
  function Seed(board: Board, dirs: seq<Direction>, items: seq<ScoreItem>, ns: seq<Node>): (r: seq<ScoreItem>)
    ensures |r| == |items|
    ensures (forall k :: 0 <= k < |ns| ==> ns[k].occupant.None?) ==> r == items
  {
    if ns == [] then items
    else Credit(board, dirs, Seed(board, dirs, items, ns[..|ns| - 1]), ns[|ns| - 1])
  }

  /** `update`: credit the node's occupant, then debit the previous occupant by the same weight. */
  function Updated(board: Board, dirs: seq<Direction>, items: seq<ScoreItem>, e: Event): (r: seq<ScoreItem>)
    ensures |r| == |items|
    ensures e.OtherEvent? ==> r == items
  {
    match e
    case OtherEvent => items
    case NodeEvent(n, previous) =>
      var credited := Credit(board, dirs, items, n);
      match previous
      case None => credited
      case Some(p) => Changed(credited, p, Debit(Weight(board, dirs, n)))
  }

  /** What one node contributes to player q's score. */
  function Share(board: Board, dirs: seq<Direction>, n: Node, q: PlayerId): nat
  {
    if n.occupant == Some(q) then Weight(board, dirs, n) else 0
  }

  /** The weight of the nodes of `ns` that q occupies: q's score by a full scan. */
  function Owned(board: Board, dirs: seq<Direction>, ns: seq<Node>, q: PlayerId): nat
  {
    if ns == [] then 0
    else Owned(board, dirs, ns[..|ns| - 1], q) + Share(board, dirs, ns[|ns| - 1], q)
  }

  /** What one node contributes to the sum of the scores of the players in `items`. */
  function RegisteredShare(board: Board, dirs: seq<Direction>, n: Node, items: seq<ScoreItem>): nat
  {
    if n.occupant.Some? && Registered(items, n.occupant.value) then Weight(board, dirs, n) else 0
  }

  /** The weight of the nodes of `ns` occupied by a player registered in `items`. */
  function RegisteredWeight(board: Board, dirs: seq<Direction>, ns: seq<Node>, items: seq<ScoreItem>): nat
  {
    if ns == [] then 0
    else RegisteredWeight(board, dirs, ns[..|ns| - 1], items) + RegisteredShare(board, dirs, ns[|ns| - 1], items)
  }

  /** The weight of all occupied nodes of `ns`, whoever occupies them. */
  function OccupiedWeight(board: Board, dirs: seq<Direction>, ns: seq<Node>): nat
  {
    if ns == [] then 0
    else OccupiedWeight(board, dirs, ns[..|ns| - 1]) +
         (if ns[|ns| - 1].occupant.Some? then Weight(board, dirs, ns[|ns| - 1]) else 0)
  }

  /** When every occupant is registered, the registered weight is the weight of all occupied nodes. */
  lemma {:induction false} AllRegisteredWeight(board: Board, dirs: seq<Direction>, ns: seq<Node>, items: seq<ScoreItem>)
    requires forall k :: 0 <= k < |ns| && ns[k].occupant.Some? ==> Registered(items, ns[k].occupant.value)
    ensures RegisteredWeight(board, dirs, ns, items) == OccupiedWeight(board, dirs, ns)
  {
    if ns != [] {
      AllRegisteredWeight(board, dirs, ns[..|ns| - 1], items);
    }
  }

  /** A weight sum depends only on which players are registered, not on their scores. */
  lemma {:induction false} RegisteredWeightSameRoster(board: Board, dirs: seq<Direction>, ns: seq<Node>, items: seq<ScoreItem>, items': seq<ScoreItem>)
    requires forall q :: Registered(items', q) <==> Registered(items, q)
    ensures RegisteredWeight(board, dirs, ns, items') == RegisteredWeight(board, dirs, ns, items)
  {
    if ns != [] {
      RegisteredWeightSameRoster(board, dirs, ns[..|ns| - 1], items, items');
    }
  }

  /** Crediting a node keeps the roster and, with distinct ids, keeps them distinct. */
  lemma {:induction false} CreditKeepsRoster(board: Board, dirs: seq<Direction>, items: seq<ScoreItem>, n: Node)
    ensures |Credit(board, dirs, items, n)| == |items|
    ensures forall q :: Registered(Credit(board, dirs, items, n), q) <==> Registered(items, q)
    ensures DistinctIds(items) ==> DistinctIds(Credit(board, dirs, items, n))
  {
    if n.occupant.Some? && DistinctIds(items) {
      ChangedKeepsDistinct(items, n.occupant.value, Weight(board, dirs, n));
    }
  }

  /** The initial scan keeps the roster: the same ids, still distinct if they were. */
  lemma {:induction false} SeedKeepsRoster(board: Board, dirs: seq<Direction>, items: seq<ScoreItem>, ns: seq<Node>)
    ensures |Seed(board, dirs, items, ns)| == |items|
    ensures forall q :: Registered(Seed(board, dirs, items, ns), q) <==> Registered(items, q)
    ensures DistinctIds(items) ==> DistinctIds(Seed(board, dirs, items, ns))
  {
    if ns != [] {
      SeedKeepsRoster(board, dirs, items, ns[..|ns| - 1]);
      CreditKeepsRoster(board, dirs, Seed(board, dirs, items, ns[..|ns| - 1]), ns[|ns| - 1]);
    }
  }

  /** Crediting a node adds the node's share to each registered player. */
  lemma {:induction false} CreditPoints(board: Board, dirs: seq<Direction>, items: seq<ScoreItem>, n: Node, q: PlayerId)
    requires DistinctIds(items)
    ensures Points(Credit(board, dirs, items, n), q) ==
            Points(items, q) + (if Registered(items, q) then Share(board, dirs, n, q) else 0)
  {
    if n.occupant.Some? {
      PointsChanged(items, n.occupant.value, Weight(board, dirs, n), q);
    }
  }

  /**
   * The initial scan raises each registered player's score by the weight of
   * the nodes that player occupies; unknown players stay at 0.
   */
  lemma {:induction false} SeedPoints(board: Board, dirs: seq<Direction>, items: seq<ScoreItem>, ns: seq<Node>, q: PlayerId)
    requires DistinctIds(items)
    ensures Points(Seed(board, dirs, items, ns), q) ==
            Points(items, q) + (if Registered(items, q) then Owned(board, dirs, ns, q) else 0)
  {
    if ns != [] {
      var init := ns[..|ns| - 1];
      SeedPoints(board, dirs, items, init, q);
      SeedKeepsRoster(board, dirs, items, init);
      CreditPoints(board, dirs, Seed(board, dirs, items, init), ns[|ns| - 1], q);
    }
  }

  /** The initial scan raises the total by the weight of the nodes occupied by registered players. */
  lemma {:induction false} SeedTotal(board: Board, dirs: seq<Direction>, items: seq<ScoreItem>, ns: seq<Node>)
    ensures Total(Seed(board, dirs, items, ns)) == Total(items) + RegisteredWeight(board, dirs, ns, items)
  {
    if ns != [] {
      var init := ns[..|ns| - 1];
      var last := ns[|ns| - 1];
      var before := Seed(board, dirs, items, init);
      SeedTotal(board, dirs, items, init);
      SeedKeepsRoster(board, dirs, items, init);
      if last.occupant.Some? {
        TotalChanged(before, last.occupant.value, Weight(board, dirs, last));
      }
    }
  }

  /**
   * Constructing from a roster without repeated ids and scanning the node
   * list `ns` once: each roster player holds the weight of the nodes they occupy,
   * every other id 0, and the total is the weight of the nodes occupied by
   * roster players (of all occupied nodes when every occupant is on the roster).
   */
  lemma {:induction false} InitialScore(board: Board, dirs: seq<Direction>, players: seq<PlayerId>, ns: seq<Node>)
    requires Distinct(players)
    ensures forall q :: Points(Seed(board, dirs, ZeroScores(players), ns), q) ==
                        (if q in players then Owned(board, dirs, ns, q) else 0)
    ensures Total(Seed(board, dirs, ZeroScores(players), ns)) ==
            RegisteredWeight(board, dirs, ns, ZeroScores(players))
    ensures (forall k :: 0 <= k < |ns| && ns[k].occupant.Some? ==> ns[k].occupant.value in players) ==>
              Total(Seed(board, dirs, ZeroScores(players), ns)) == OccupiedWeight(board, dirs, ns)
  {
    var zero := ZeroScores(players);
    ZeroScoresRoster(players);
    ZeroScoresDistinct(players);
    forall q
      ensures Points(Seed(board, dirs, zero, ns), q) ==
              (if q in players then Owned(board, dirs, ns, q) else 0)
    {
      SeedPoints(board, dirs, zero, ns, q);
      ZeroScoresPoints(players, q);
    }
    ZeroScoresTotal(players);
    SeedTotal(board, dirs, zero, ns);
    if forall k :: 0 <= k < |ns| && ns[k].occupant.Some? ==> ns[k].occupant.value in players {
      AllRegisteredWeight(board, dirs, ns, zero);
    }
  }

  /** An update keeps the roster: the same ids, still distinct if they were. */
  lemma {:induction false} UpdateKeepsRoster(board: Board, dirs: seq<Direction>, items: seq<ScoreItem>, e: Event)
    ensures |Updated(board, dirs, items, e)| == |items|
    ensures forall q :: Registered(Updated(board, dirs, items, e), q) <==> Registered(items, q)
    ensures DistinctIds(items) ==> DistinctIds(Updated(board, dirs, items, e))
  {
    if e.NodeEvent? {
      var credited := Credit(board, dirs, items, e.node);
      CreditKeepsRoster(board, dirs, items, e.node);
      if e.previous.Some? && DistinctIds(items) {
        ChangedKeepsDistinct(credited, e.previous.value, Debit(Weight(board, dirs, e.node)));
      }
    }
  }

  /** Debiting p by w after a step that kept the roster: only a registered p == q loses w. */
  lemma {:induction false} DebitPoints(items: seq<ScoreItem>, credited: seq<ScoreItem>, p: PlayerId, w: int, q: PlayerId)
    requires DistinctIds(credited)
    requires Registered(credited, q) <==> Registered(items, q)
    ensures Points(Changed(credited, p, Debit(w)), q) ==
            Points(credited, q) - (if p == q && Registered(items, q) then w else 0)
  {
    PointsChanged(credited, p, Debit(w), q);
  }

  /**
   * An update from a node adds the node's weight to the new occupant and
   * takes it from the previous occupant; every other score is unchanged.
   */
  lemma {:induction false} UpdatePoints(board: Board, dirs: seq<Direction>, items: seq<ScoreItem>, n: Node, previous: Option<PlayerId>, q: PlayerId)
    requires DistinctIds(items)
    ensures var w := Weight(board, dirs, n);
            var gain := if n.occupant == Some(q) && Registered(items, q) then w else 0;
            var loss := if previous == Some(q) && Registered(items, q) then w else 0;
            Points(Updated(board, dirs, items, NodeEvent(n, previous)), q) == Points(items, q) + gain - loss
  {
    var w := Weight(board, dirs, n);
    var credited := Credit(board, dirs, items, n);
    var after := Updated(board, dirs, items, NodeEvent(n, previous));
    var gain := if n.occupant == Some(q) && Registered(items, q) then w else 0;
    var loss := if previous == Some(q) && Registered(items, q) then w else 0;
    assert Points(credited, q) == Points(items, q) + gain by {
      CreditPoints(board, dirs, items, n, q);
    }
    if previous.Some? {
      assert after == Changed(credited, previous.value, Debit(w));
      CreditKeepsRoster(board, dirs, items, n);
      DebitPoints(items, credited, previous.value, w, q);
      assert Points(after, q) == Points(items, q) + gain - loss;
    } else {
      assert after == credited;
    }
  }

  /**
   * An update from a node moves the total by the node's weight for a
   * registered new occupant and back by it for a registered previous one.
   */
  lemma {:induction false} UpdateTotal(board: Board, dirs: seq<Direction>, items: seq<ScoreItem>, e: Event)
    ensures e.NodeEvent? ==>
              var w := Weight(board, dirs, e.node);
              var gain := if e.node.occupant.Some? && Registered(items, e.node.occupant.value) then w else 0;
              var loss := if e.previous.Some? && Registered(items, e.previous.value) then w else 0;
              Total(Updated(board, dirs, items, e)) == Total(items) + gain - loss
  {
    if e.NodeEvent? {
      var w := Weight(board, dirs, e.node);
      var credited := Credit(board, dirs, items, e.node);
      if e.node.occupant.Some? {
        TotalChanged(items, e.node.occupant.value, w);
      }
      CreditKeepsRoster(board, dirs, items, e.node);
      if e.previous.Some? {
        TotalChanged(credited, e.previous.value, Debit(w));
      }
    }
  }

  /** A node passing between two registered players leaves the total unchanged. */
  lemma {:induction false} TransferKeepsTotal(board: Board, dirs: seq<Direction>, items: seq<ScoreItem>, n: Node, previous: PlayerId)
    requires n.occupant.Some? && Registered(items, n.occupant.value)
    requires Registered(items, previous)
    ensures Total(Updated(board, dirs, items, NodeEvent(n, Some(previous)))) == Total(items)
  {
    UpdateTotal(board, dirs, items, NodeEvent(n, Some(previous)));
  }

  /** Replacing node k by a node at the same place changes q's scan score by the difference of their shares. */
  lemma {:induction false} OwnedReplace(board: Board, dirs: seq<Direction>, ns: seq<Node>, k: nat, n': Node, q: PlayerId)
    requires k < |ns|
    requires n'.x == ns[k].x && n'.y == ns[k].y
    ensures Owned(board, dirs, ns[k := n'], q) ==
            Owned(board, dirs, ns, q) - Share(board, dirs, ns[k], q) + Share(board, dirs, n', q)
  {
    var ns' := ns[k := n'];
    if k == |ns| - 1 {
      assert ns'[..|ns'| - 1] == ns[..|ns| - 1];
    } else {
      assert ns'[..|ns'| - 1] == ns[..|ns| - 1][k := n'];
      OwnedReplace(board, dirs, ns[..|ns| - 1], k, n', q);
    }
  }

  /** The same for the registered weight. */
  lemma {:induction false} RegisteredWeightReplace(board: Board, dirs: seq<Direction>, ns: seq<Node>, k: nat, n': Node, items: seq<ScoreItem>)
    requires k < |ns|
    requires n'.x == ns[k].x && n'.y == ns[k].y
    ensures RegisteredWeight(board, dirs, ns[k := n'], items) ==
            RegisteredWeight(board, dirs, ns, items) - RegisteredShare(board, dirs, ns[k], items) + RegisteredShare(board, dirs, n', items)
  {
    var ns' := ns[k := n'];
    if k == |ns| - 1 {
      assert ns'[..|ns'| - 1] == ns[..|ns| - 1];
    } else {
      assert ns'[..|ns'| - 1] == ns[..|ns| - 1][k := n'];
      RegisteredWeightReplace(board, dirs, ns[..|ns| - 1], k, n', items);
    }
  }

  /**
   * Node k of `ns` gets the occupant `who`: taken by a player (Some) or freed
   * (None). The result is the new node list and the notification update
   * receives, carrying the node's previous occupant.
   */
  function Reassign(ns: seq<Node>, k: nat, who: Option<PlayerId>): (r: (seq<Node>, Event))
    requires k < |ns|
    ensures |r.0| == |ns| && r.0[k].occupant == who
    ensures forall j :: 0 <= j < |ns| && j != k ==> r.0[j] == ns[j]
    ensures r.1 == NodeEvent(r.0[k], ns[k].occupant)
  {
    var n' := ns[k].(occupant := who);
    (ns[k := n'], NodeEvent(n', ns[k].occupant))
  }

  /**
   * The list agrees with a full scan of `ns`: distinct ids, each registered
   * player holds the weight of the nodes it occupies, unknown ids 0, and the
   * total is the weight of the nodes occupied by registered players.
   */
  ghost predicate Consistent(board: Board, dirs: seq<Direction>, items: seq<ScoreItem>, ns: seq<Node>)
  {
    && DistinctIds(items)
    && (forall q :: Points(items, q) == (if Registered(items, q) then Owned(board, dirs, ns, q) else 0))
    && Total(items) == RegisteredWeight(board, dirs, ns, items)
  }

  /** Right after construction and the initial scan of `ns` the list agrees with a full scan of `ns`. */
  lemma {:induction false} InitialScoreConsistent(board: Board, dirs: seq<Direction>, players: seq<PlayerId>, ns: seq<Node>)
    requires Distinct(players)
    ensures Consistent(board, dirs, Seed(board, dirs, ZeroScores(players), ns), ns)
  {
    var zero := ZeroScores(players);
    var seeded := Seed(board, dirs, zero, ns);
    InitialScore(board, dirs, players, ns);
    ZeroScoresRoster(players);
    ZeroScoresDistinct(players);
    SeedKeepsRoster(board, dirs, zero, ns);
    RegisteredWeightSameRoster(board, dirs, ns, zero, seeded);
  }

  /** One player's side of `UpdateKeepsConsistent`: its points follow its full-scan score. */
  lemma {:induction false} UpdateKeepsPlayer(board: Board, dirs: seq<Direction>, items: seq<ScoreItem>, ns: seq<Node>, k: nat, who: Option<PlayerId>, q: PlayerId)
    requires k < |ns|
    requires Consistent(board, dirs, items, ns)
    ensures var r := Reassign(ns, k, who);
            var after := Updated(board, dirs, items, r.1);
            Points(after, q) == (if Registered(after, q) then Owned(board, dirs, r.0, q) else 0)
  {
    var (ns', e) := Reassign(ns, k, who);
    var n' := ns'[k];
    assert ns' == ns[k := n'];
    UpdateKeepsRoster(board, dirs, items, e);
    WeightIgnoresOccupancy(board, dirs, ns[k], n');
    UpdatePoints(board, dirs, items, n', ns[k].occupant, q);
    OwnedReplace(board, dirs, ns, k, n', q);
  }

  /** The total's side of `UpdateKeepsConsistent`. */
  lemma {:induction false} UpdateKeepsTotal(board: Board, dirs: seq<Direction>, items: seq<ScoreItem>, ns: seq<Node>, k: nat, who: Option<PlayerId>)
    requires k < |ns|
    requires Total(items) == RegisteredWeight(board, dirs, ns, items)
    ensures var r := Reassign(ns, k, who);
            var after := Updated(board, dirs, items, r.1);
            Total(after) == RegisteredWeight(board, dirs, r.0, after)
  {
    var (ns', e) := Reassign(ns, k, who);
    var n' := ns'[k];
    var after := Updated(board, dirs, items, e);
    assert ns' == ns[k := n'];
    UpdateKeepsRoster(board, dirs, items, e);
    WeightIgnoresOccupancy(board, dirs, ns[k], n');
    UpdateTotal(board, dirs, items, e);
    RegisteredWeightReplace(board, dirs, ns, k, n', items);
    RegisteredWeightSameRoster(board, dirs, ns', items, after);
  }

  /**
   * Incremental update equals a rescan: when node k changes hands or is
   * freed and update is told the new node and its previous occupant, a list
   * that agreed with the old nodes agrees with the new ones.
   */
  lemma {:induction false} UpdateKeepsConsistent(board: Board, dirs: seq<Direction>, items: seq<ScoreItem>, ns: seq<Node>, k: nat, who: Option<PlayerId>)
    requires k < |ns|
    requires Consistent(board, dirs, items, ns)
    ensures Consistent(board, dirs, Updated(board, dirs, items, Reassign(ns, k, who).1), Reassign(ns, k, who).0)
  {
    var (ns', e) := Reassign(ns, k, who);
    var after := Updated(board, dirs, items, e);
    UpdateKeepsRoster(board, dirs, items, e);
    forall q
      ensures Points(after, q) == (if Registered(after, q) then Owned(board, dirs, ns', q) else 0)
    {
      UpdateKeepsPlayer(board, dirs, items, ns, k, who, q);
    }
    UpdateKeepsTotal(board, dirs, items, ns, k, who);
  }

  /**
   * The source never checks that scores stay non-negative; they do as long
   * as the list agrees with a scan of the board.
   */
  lemma {:induction false} ConsistentScoresNonNegative(board: Board, dirs: seq<Direction>, items: seq<ScoreItem>, ns: seq<Node>)
    requires Consistent(board, dirs, items, ns)
    ensures forall i :: 0 <= i < |items| ==> items[i].score >= 0
  {
    forall i | 0 <= i < |items|
      ensures items[i].score >= 0
    {
      var q := items[i].playerId;
      assert Points(items, q) == items[i].score;
      assert Registered(items, q);
    }
  }
}
