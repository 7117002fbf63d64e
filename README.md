# BasicScore of the KTH Othello game, in Dafny

This project models `BasicScore`, the score keeper of the Othello game
(`src/kth/game/othello/score/BasicScore.java`), and proves what its
bookkeeping guarantees.

A `BasicScore` holds a list of score items, each a pair of a player id and
an int score. It starts with one item per roster player, at score 0. An
initial scan of the board credits each occupied node to its occupant. The
node counts 2 when one of the board's directions leads off the board from
it (a boundary node) and 1 otherwise. From then on it observes the nodes.
When a node changes hands, the new occupant gains the node's weight and the
previous occupant (passed as a String) loses it. The affected ids are then
forwarded to its own observers. Changing a score removes the player's item
and appends a fresh one, so the list order shifts as scores change.

Module layout:

- `wrappers.dfy`, module `Wrappers`: `Option`.
- `geometry.dfy`, module `Geometry`: board, node and direction values, and
  the weight of a node (2 on the boundary, 1 inside).
- `score_items.dfy`, module `ScoreItems`: the score list as a value and the
  functions that specify the class. It covers first-match lookup,
  `ArrayList.remove(Object)`, the remove-then-append change and the sum of
  scores, with their lemmas.
- `tracking.dfy`, module `Tracking`: the initial scan (`Seed`), the reaction
  to a notification (`Updated`) and the full-scan score of a player
  (`Owned`). Its main result is that incremental updating keeps every score
  equal to what a fresh scan of the changed board gives.
- `basic_score.dfy`, module `Score`: the class `BasicScore`. It has a `seq`
  field for the list and methods with loops, each proved against the
  functions above.

The main results:

- After construction from a roster without repeated ids and one initial
  scan of any node list, every roster player's score is the weight of the
  nodes of that list it occupies. Every other id reads 0. This holds whenever
  the scan happens, however the board was filled after construction. See `Tracking.InitialScore` and
  `Tracking.InitialScoreConsistent`.
- Each update that mirrors a real change of occupant, a node taken by a
  player or a node freed, keeps that agreement with a full scan of the new
  board (`Tracking.UpdateKeepsConsistent`).
- While that agreement holds, no score is negative
  (`Tracking.ConsistentScoresNonNegative`).
- When no two items share an id, incrementing then decrementing a player by
  the same amount restores every player's points. The list itself differs
  only by where the item sits (`ScoreItems.IncrementThenDecrement`). With a
  repeated id this fails, in the model as in the code.
- The length of the list never changes.
- A node passing between two registered players leaves the total unchanged.

Two behaviours of the code that a caller might not expect, both modelled
as written:

- A node whose new occupant is null still reaches `update`. Nobody is
  credited, but a previous occupant given as a String is still debited. The
  notification is still sent, and it carries a null id (`None` here).
- Callers might expect scores to stay non-negative, but nothing in the class
  enforces it. The model proves non-negativity only while the list agrees
  with a scan of the board.

## Model

| member | source | states |
|---|---|---|
| Score.BasicScore.constructor | src/kth/game/othello/score/BasicScore.java:21-26 | the list is one item per roster player, in roster order, each with score 0; the board is stored |
| Score.BasicScore.IncrementPoints | src/kth/game/othello/score/BasicScore.java:28-30 | the new list is the old one with the player's score moved by `amount` (unchanged for an unknown id) |
| Score.BasicScore.DecrementPoints | src/kth/game/othello/score/BasicScore.java:32-34 | the new list is the old one with the player's score moved by `Debit(amount)`, that is by `-1 * amount` (unchanged for an unknown id) |
| ScoreItems.Debit | src/kth/game/othello/score/BasicScore.java:33 | the points passed on by `decrementPoints` cancel the amount: `Debit(amount) + amount == 0` |
| Score.BasicScore.ChangePoints | src/kth/game/othello/score/BasicScore.java:36-41 | removing the first item for the id and appending one with the moved score gives `Changed`; an unknown id leaves the list as it was |
| Score.BasicScore.SetInitialScore | src/kth/game/othello/score/BasicScore.java:49-56 | scanning the node list it is given (the board's nodes at the time of the call), in order, credits each occupied node's weight to its occupant (`Seed` of that list); combined with `Tracking.InitialScore` for the same list, each player ends with the weight it occupies in it |
| Score.BasicScore.NodeOnBoundary | src/kth/game/othello/score/BasicScore.java:58-67 | true exactly when some direction leads from the node to a coordinate the board does not have |
| Score.BasicScore.GetPlayersScore | src/kth/game/othello/score/BasicScore.java:69-72 | returns the list of score items as it stands |
| Score.BasicScore.GetPoints | src/kth/game/othello/score/BasicScore.java:74-81 | the score of the first item with the id, or 0 when no item has it |
| Score.BasicScore.GetScoreItem | src/kth/game/othello/score/BasicScore.java:83-90 | None exactly when no item has the id; otherwise the first item that has it |
| Score.BasicScore.Update | src/kth/game/othello/score/BasicScore.java:92-108 | a non-node source changes nothing and notifies nobody; a node credits its occupant and debits a String previous occupant by the node's weight, then notifies `[occupant]` or `[occupant, previous]` |
| Geometry.Weight | src/kth/game/othello/score/BasicScore.java:52 | a node weighs 1 or 2, and 2 exactly on the boundary |
| Geometry.WeightIgnoresOccupancy | src/kth/game/othello/score/BasicScore.java:58-67 | the weight depends only on the node's coordinates, never on who occupies it |
| ScoreItems.Find | src/kth/game/othello/score/BasicScore.java:83-90 | the index of the first item with the id; None exactly when no item has it |
| ScoreItems.Points | src/kth/game/othello/score/BasicScore.java:74-81 | 0 for an unknown id; with distinct ids, the score of the item that has the id |
| ScoreItems.RemoveFirst | src/kth/game/othello/score/BasicScore.java:38 | `remove(Object)` fails exactly when the item is absent; on success the multiset loses exactly one copy of it |
| ScoreItems.RemoveFirstAt | src/kth/game/othello/score/BasicScore.java:38 | removing an item that has no equal copy before index i removes exactly position i |
| ScoreItems.Changed | src/kth/game/othello/score/BasicScore.java:36-41 | the length and the set of registered ids are kept; an unknown id leaves the list unchanged; a known id ends up last with its points moved by `points` |
| ScoreItems.RemoveThenAppend | src/kth/game/othello/score/BasicScore.java:37-40 | for the first item found for the id, `remove` succeeds and removing then appending the moved item is `Changed` |
| ScoreItems.ChangedAt | src/kth/game/othello/score/BasicScore.java:36-41 | the change cuts out the first item with the id and appends the moved item |
| ScoreItems.TotalChanged | src/kth/game/othello/score/BasicScore.java:36-41 | the sum of all scores moves by `points` exactly when the id is registered |
| ScoreItems.ChangedKeepsDistinct | src/kth/game/othello/score/BasicScore.java:36-41 | a change never makes two items share an id |
| ScoreItems.PointsChanged | src/kth/game/othello/score/BasicScore.java:36-41 | with distinct ids, a change moves only that player's points, by `points`, and only when it is registered |
| ScoreItems.IncrementThenDecrement | src/kth/game/othello/score/BasicScore.java:28-34 | with distinct ids, incrementing then decrementing by the same amount is the zero change (scores as before, the item moved last) |
| ScoreItems.IncrementThenDecrementPoints | src/kth/game/othello/score/BasicScore.java:28-34 | with distinct ids, incrementing then decrementing by the same amount restores every player's points |
| ScoreItems.ZeroScores | src/kth/game/othello/score/BasicScore.java:21-24 | item i is roster player i with score 0 |
| ScoreItems.ZeroScoresRoster | src/kth/game/othello/score/BasicScore.java:21-24 | the registered ids are exactly the roster players |
| ScoreItems.ZeroScoresDistinct | src/kth/game/othello/score/BasicScore.java:21-24 | the items have distinct ids exactly when the roster has no repeats |
| ScoreItems.ZeroScoresPoints | src/kth/game/othello/score/BasicScore.java:21-24 | every id reads 0 after construction |
| ScoreItems.ZeroScoresTotal | src/kth/game/othello/score/BasicScore.java:21-24 | the scores sum to 0 after construction |
| Tracking.Credit | src/kth/game/othello/score/BasicScore.java:51-53 | crediting one node (the scan's step, and the credit in `update` at lines 98-99) keeps the list's length; a free node, or an occupant not on the roster, leaves the list unchanged |
| Tracking.Seed | src/kth/game/othello/score/BasicScore.java:49-56 | the scan, node by node, keeps the list's length; a board with no occupied node leaves it unchanged |
| Tracking.Updated | src/kth/game/othello/score/BasicScore.java:93-105 | the reaction to one notification keeps the list's length; a source that is not a node leaves the list unchanged |
| Tracking.CreditKeepsRoster | src/kth/game/othello/score/BasicScore.java:51-53 | crediting a node keeps the length, the registered ids and their distinctness |
| Tracking.SeedKeepsRoster | src/kth/game/othello/score/BasicScore.java:49-56 | the scan keeps the length, the registered ids and their distinctness |
| Tracking.CreditPoints | src/kth/game/othello/score/BasicScore.java:51-53 | with distinct ids, crediting a node raises only its registered occupant's points, by the node's weight |
| Tracking.SeedPoints | src/kth/game/othello/score/BasicScore.java:49-56 | with distinct ids, the scan raises each registered player's points by the weight of the nodes it occupies, and nobody else's |
| Tracking.SeedTotal | src/kth/game/othello/score/BasicScore.java:49-56 | the scan raises the total by the weight of the nodes occupied by registered players |
| Tracking.AllRegisteredWeight | src/kth/game/othello/score/BasicScore.java:49-56 | when every occupant is registered, the registered weight is the weight of all occupied nodes |
| Tracking.InitialScore | src/kth/game/othello/score/BasicScore.java:21-56 | for any node list `ns`, after construction from a roster without repeats and one scan of `ns`, each roster player holds the weight it occupies in `ns` and every other id 0; the total is the registered occupied weight, and the full occupied weight when every occupant is on the roster |
| Tracking.InitialScoreConsistent | src/kth/game/othello/score/BasicScore.java:21-56 | for any node list `ns`, right after construction and the scan of `ns`, the list agrees with a full scan of `ns` |
| Tracking.UpdateKeepsRoster | src/kth/game/othello/score/BasicScore.java:92-108 | an update keeps the length, the registered ids and their distinctness |
| Tracking.UpdatePoints | src/kth/game/othello/score/BasicScore.java:98-105 | with distinct ids, a node update gives a registered new occupant the node's weight and takes it from a registered previous occupant; nobody else moves |
| Tracking.UpdateTotal | src/kth/game/othello/score/BasicScore.java:98-105 | a node update moves the total up by the weight for a registered new occupant and down by it for a registered previous occupant |
| Tracking.TransferKeepsTotal | src/kth/game/othello/score/BasicScore.java:98-105 | a node passing between two registered players leaves the total unchanged |
| Tracking.OwnedReplace | src/kth/game/othello/score/BasicScore.java:49-56 | replacing a node by one at the same place changes a player's full-scan score by the difference of the two nodes' shares |
| Tracking.RegisteredWeightReplace | src/kth/game/othello/score/BasicScore.java:49-56 | the same for the weight of the nodes occupied by registered players |
| Tracking.UpdateKeepsPlayer | src/kth/game/othello/score/BasicScore.java:92-108 | after node k is taken by a player or freed and `update` is told so, each player's points equal its full-scan score on the new board when the list agreed with a full scan of the old board (`Consistent`) |
| Tracking.UpdateKeepsTotal | src/kth/game/othello/score/BasicScore.java:92-108 | after the same change, the total still equals the weight of the nodes occupied by registered players |
| Tracking.UpdateKeepsConsistent | src/kth/game/othello/score/BasicScore.java:92-108 | when a node is taken by a player or freed and `update` receives that node with its previous occupant, a list that agreed with a full scan of the old board agrees with a full scan of the new one |
| Tracking.ConsistentScoresNonNegative | src/kth/game/othello/score/BasicScore.java:92-108 | while the list agrees with a full scan, no score is negative |

## Left out

- The `Observable`/`Observer` plumbing (`setChanged`, `notifyObservers`, observer registration) is not modelled. `Update` returns the list it would forward as a `Notice` value.
- Score arithmetic uses unbounded integers. Java's 32-bit `int` wrap-around is not modelled; it cannot arise with the scores of a board game.
- `Board`, `Node`, `Direction`, `Player` and `ScoreItem` are external classes and are not part of this model. They become plain values. A node is its coordinates and occupant. A board is its shape only, the set of coordinates that hold a node.
- The board's shape is fixed when the object is built: `BasicScore.board` is a constant, and `NodeOnBoundary` asks it which coordinates exist. The nodes, whose occupants change over time, are not stored. `SetInitialScore` takes the node list as a parameter, standing for what `board.getNodes()` returns at the time of the call. The scan lemmas hold for every node list. The model does not check that the list's coordinates match the board's shape.
- `Direction.values()` is a global enumeration in the source. Here it is the `directions` constructor parameter, so any set of adjacency directions can be used.
- `ScoreItem.equals` is assumed to compare the player id and the score. `remove(Object)` therefore removes the first item equal in value.
- `Score.BasicScore.GetPlayersScore`: Java hands out the live list, so a caller's later edits would reach the object. Aliasing is not modelled; the method returns the list's current value.
- Calling `setInitialScore` twice credits the board twice, as in the source. The consistency results assume exactly one initial scan on a freshly constructed list.
- `Tracking.UpdateKeepsConsistent` covers updates that mirror a real change of occupant: node k taken by a player or freed, with its previous occupant passed on. An arbitrary event, for example one whose previous occupant is wrong, breaks the agreement with a scan, and the source does not guard against it.
