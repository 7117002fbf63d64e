/**
 * BasicScore: the scores of the players of one game. It keeps a list of
 * (player id, score) items, seeds it by scanning the board once and then
 * follows each change of a node's occupant.
 */
module Score {
  import opened Wrappers
  import opened Geometry
  import opened ScoreItems
  import opened Tracking

  class BasicScore {
    /** The score items, one per roster player to begin with. */
    var playerScores: seq<ScoreItem>
    /** The board the scores are kept for. */
    const board: Board
    /** The board's adjacency directions (`Direction.values()`). */
    const directions: seq<Direction>

    /** One item with score 0 for each roster player, in roster order. */
    constructor (players: seq<PlayerId>, board: Board, directions: seq<Direction>)
      ensures playerScores == ZeroScores(players)
      ensures this.board == board && this.directions == directions
    {
      var items: seq<ScoreItem> := [];
      for i := 0 to |players|
        invariant items == ZeroScores(players[..i])
      {
        assert players[..i + 1][..i] == players[..i];
        items := items + [ScoreItem(players[i], 0)];
      }
      assert players[..|players|] == players;
      playerScores := items;
      this.board := board;
      this.directions := directions;
    }

    method IncrementPoints(playerId: PlayerId, amount: int)
      modifies this
      ensures playerScores == Changed(old(playerScores), playerId, amount)
    {
      ChangePoints(playerId, amount);
    }

    method DecrementPoints(playerId: PlayerId, amount: int)
      modifies this
      ensures playerScores == Changed(old(playerScores), playerId, Debit(amount))
    {
      ChangePoints(playerId, Debit(amount));
    }

    /**
     * Removes the first item for `playerId` and appends one with its score
     * moved by `points`; an unknown id finds no item and nothing is removed.
     */
    method ChangePoints(playerId: PlayerId, points: int)
      modifies this
      ensures playerScores == Changed(old(playerScores), playerId, points)
    {
      ghost var items := playerScores;
      var oldScoreItem := GetScoreItem(playerId);
      if oldScoreItem.None? {
        assert !Registered(items, playerId);
        return;
      }
      var x := oldScoreItem.value;
      RemoveThenAppend(items, playerId, points, x);
      var removed := RemoveFirst(playerScores, x);
      if removed.Some? {
        playerScores := removed.value + [ScoreItem(x.playerId, x.score + points)];
      }
    }

    /**
     * Credits every occupied node of the board to its occupant, node by node.
     * `nodes` is what `board.getNodes()` returns at the time of the call.
     */
    method SetInitialScore(nodes: seq<Node>)
      modifies this
      ensures playerScores == Seed(board, directions, old(playerScores), nodes)
    {
      ghost var start := playerScores;
      for k := 0 to |nodes|
        invariant playerScores == Seed(board, directions, start, nodes[..k])
      {
        assert nodes[..k + 1][..k] == nodes[..k];
        ghost var before := playerScores;
        var node := nodes[k];
        if node.occupant.Some? {
          var onBoundary := NodeOnBoundary(node);
          var amount := if onBoundary then 2 else 1;
          assert amount == Weight(board, directions, node);
          IncrementPoints(node.occupant.value, amount);
        }
        assert playerScores == Credit(board, directions, before, node);
      }
      assert nodes[..|nodes|] == nodes;
    }

    /** Tries every direction and stops at the first that leads off the board. */
    method NodeOnBoundary(node: Node) returns (onBoundary: bool)
      ensures onBoundary <==> OnBoundary(board, directions, node.x, node.y)
    {
      for i := 0 to |directions|
        invariant forall j :: 0 <= j < i ==> HasNode(board, node.x + directions[j].dx, node.y + directions[j].dy)
      {
        if !HasNode(board, node.x + directions[i].dx, node.y + directions[i].dy) {
          return true;
        }
      }
      return false;
    }

    /** The list itself (Java hands out the live list). */
    method GetPlayersScore() returns (scores: seq<ScoreItem>)
      ensures scores == playerScores
    {
      scores := playerScores;
    }

    /** The score of the first item for `playerId`, or 0 when there is none. */
    method GetPoints(playerId: PlayerId) returns (points: int)
      ensures !Registered(playerScores, playerId) ==> points == 0
      ensures forall i ::
                0 <= i < |playerScores| && playerScores[i].playerId == playerId &&
                (forall j :: 0 <= j < i ==> playerScores[j].playerId != playerId)
                ==> points == playerScores[i].score
    {
      var scoreItem := GetScoreItem(playerId);
      if scoreItem.Some? {
        points := scoreItem.value.score;
      } else {
        points := 0;
      }
    }

    /** Scans the list from the front for the first item with `playerId`. */
    method GetScoreItem(playerId: PlayerId) returns (scoreItem: Option<ScoreItem>)
      ensures scoreItem.None? <==> !Registered(playerScores, playerId)
      ensures scoreItem.Some? ==> scoreItem.value == playerScores[Find(playerScores, playerId).value]
    {
      for k := 0 to |playerScores|
        invariant forall j :: 0 <= j < k ==> playerScores[j].playerId != playerId
      {
        if playerScores[k].playerId == playerId {
          return Some(playerScores[k]);
        }
      }
      return None;
    }

    /**
     * The reaction to a node's change of occupant: the new occupant gains the
     * node's weight, a previous occupant given as a String loses it, and the
     * affected ids are passed on, new occupant first. A null new occupant
     * gains nothing (no item matches a null id) but is still passed on. A
     * source that is not a node is ignored.
     */
    method Update(e: Event) returns (notice: Notice)
      modifies this
      ensures playerScores == Updated(board, directions, old(playerScores), e)
      ensures e.OtherEvent? ==> notice == NoNotice && playerScores == old(playerScores)
      ensures e.NodeEvent? ==>
                notice == Notify([e.node.occupant] + (if e.previous.Some? then [e.previous] else []))
    {
      if e.OtherEvent? {
        return NoNotice;
      }
      // `items` and `credited` name the list before and after the credit; the
      // asserts match each step to `Credit`, `Changed` and `Updated` in turn.
      var node := e.node;
      ghost var items := playerScores;
      ghost var w := Weight(board, directions, node);
      var playerIds: seq<Option<PlayerId>> := [];
      var onBoundary := NodeOnBoundary(node);
      var amount := if onBoundary then 2 else 1;
      assert amount == w;
      if node.occupant.Some? {
        IncrementPoints(node.occupant.value, amount);
      }
      ghost var credited := playerScores;
      assert credited == Credit(board, directions, items, node);
      playerIds := playerIds + [node.occupant];
      // Fixes the notice's first entry before the optional second is appended.
      assert playerIds == [node.occupant];
      if e.previous.Some? {
        DecrementPoints(e.previous.value, amount);
        playerIds := playerIds + [e.previous];
        assert playerScores == Changed(credited, e.previous.value, Debit(w));
      }
      assert playerScores == Updated(board, directions, items, e);
      notice := Notify(playerIds);
    }
  }
}
