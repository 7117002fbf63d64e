/**
 * What the score component sees of the board: the coordinates that hold a
 * node, the nodes with their occupants, and the adjacency directions that
 * decide whether a node lies on the boundary. The board's shape never
 * changes; its nodes, whose occupants do, are passed around as a separate
 * node list.
 */
module Geometry {
  import opened Wrappers

  /** A player's identifier (a Java String). */
  type PlayerId = string

  /** One of the board's adjacency directions, as a coordinate offset. */
  datatype Direction = Direction(dx: int, dy: int)

  /** A board node; `occupant` is None when the node is free (a null id). */
  datatype Node = Node(x: int, y: int, occupant: Option<PlayerId>)

  /** The board's shape: `coords` answers `hasNode(x, y)`. */
  datatype Board = Board(coords: set<(int, int)>)

  predicate HasNode(board: Board, x: int, y: int)
  {
    (x, y) in board.coords
  }

  /** A node is on the boundary when some direction leads off the board. */
  predicate OnBoundary(board: Board, dirs: seq<Direction>, x: int, y: int)
  {
    exists i :: 0 <= i < |dirs| && !HasNode(board, x + dirs[i].dx, y + dirs[i].dy)
  }

  /** The points an occupied node is worth: 2 on the boundary, 1 inside. */
  function Weight(board: Board, dirs: seq<Direction>, n: Node): (w: int)
    ensures w == 1 || w == 2
    ensures w == 2 <==> OnBoundary(board, dirs, n.x, n.y)
  {
    if OnBoundary(board, dirs, n.x, n.y) then 2 else 1
  }

  /** The weight depends on the node's coordinates only, never on its occupant. */
  lemma {:induction false} WeightIgnoresOccupancy(board: Board, dirs: seq<Direction>, n: Node, n': Node)
    requires n'.x == n.x && n'.y == n.y
    ensures Weight(board, dirs, n') == Weight(board, dirs, n)
  {
  }
}
