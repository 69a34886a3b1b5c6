# Gobblet Gobblers — a verified model of the game engine

This project models the browser version of Gobblet Gobblers. Two sides, the player
(black) and the enemy (white), each own six pieces: two of each size 0, 1 and 2. They
put pieces from their inventories onto a 3×3 board. A larger piece may cover a smaller
one, and the top piece of a box may be moved onto another box. The game engine is the
`Game` class of `www/src/ts/game.ts` together with the page helpers of
`www/src/ts/domops.ts`. The engine keeps its whole board in the page. A box is a `div`
whose children are piece images in document order. A piece is in the inventory while its
parent is an inventory row. Only a displayed (`display: block`) piece is visible.

The model keeps that shape:

- `Pieces` (pieces.dfy) holds the twelve pieces `Gobblet(owner, id)`. The size is
  `id / 2`, as the inventory rows are filled in `www/src/index.ts`. A piece's class list
  is a sequence of tokens: `gobblet`, `gobblet-size<n>`, `player-gobblet`,
  `enemy-gobblet` and any other class. `get_gobblet_size` and `which_gobblet` read those
  tokens.
- `DomOps` (domops.dfy) has the `Layout` value, a snapshot of the page: the children of
  the nine boxes, the inventory and the displayed pieces. The `Board` class is the page
  itself, with its three fields updated in place. `WellFormed` says that every piece sits
  in exactly one place. The DOM queries of domops.ts are functions on a `Layout`.
  `get_top_gobblet_on_box` and `all_gobblet_display_none_on_box` are loops in `Board`
  methods, each proved against its function.
- `Rules` (rules.dfy) holds the rules `CanPut` and `CanMove` and the page changes made by
  `put_gobblet` and `move_gobblet`. It also holds the invariant the game keeps
  (`Consistent`: well formed, every box strictly ascending in size, exactly the last
  child of each box displayed) and the enemy actions that `random_select` may take.
- `Judging` (judging.dfy) holds the eight lines, the verdict of `judge`, and facts about
  the verdict.
- `GameEngine` (game.dfy) holds the `Game` class. Its fields are `state` and
  `selecting`, and it refers to the `Board`. Every handler is a method with the source's
  branches and loops.

`random_select` loops until a randomly drawn white piece and box pass its tests. The model
takes one pair that passes, chosen arbitrarily. `EnemyHasAction` proves that a passing
pair always exists on a consistent page, so the model's enemy turn always ends. The
source's loop, which draws at random, ends with probability 1.

Where the code does something a reader might not expect, the model follows the code:

- After a successful move, `action_click_box` does not clear `selecting_gobblet`
  (game.ts:448-473). After a successful put it does (game.ts:409).
- `unselect_gobblet_on_box_if_needed` returns to idle but leaves `selecting_gobblet` set
  (game.ts:362-365), although its comment (game.ts:357) calls this unselecting.
- `can_put_gobblet` compares against every piece in the box, covered pieces included
  (game.ts:183-194). Under the stacking invariant this is the same as comparing with the
  top piece.

## Model

| member | source | states |
|---|---|---|
| Pieces.GobbletSize | www/src/ts/domops.ts:18-27 | -1 exactly when no size class is present; otherwise the size of the last size class in the list |
| Pieces.GetGobbletSize | www/src/ts/domops.ts:18-27 | the loop returns -1 without a size class, otherwise the value of the last size class (later ones override earlier ones) |
| Pieces.SizeOfClassList | www/src/ts/domops.ts:18-27 | the size read from a piece's class list is the piece's size |
| Pieces.OwnerScan | www/src/ts/domops.ts:51-55 | the early-returning scan gives 0 when no owner class follows; otherwise ±1 after the first owner class, 1 for the player class and -1 for the enemy class |
| Pieces.WhichGobblet | www/src/ts/domops.ts:49-56 | 0 for no element and for a list without owner class; 1 or -1 according to the first owner class |
| Pieces.OwnerCode | www/src/ts/domops.ts:49-56 | for a piece or none: 0 exactly for none, 1 exactly for a player piece, -1 exactly for an enemy piece |
| Pieces.HasPlayerClass | www/src/ts/domops.ts:82-87 | true exactly when a player class occurs from the given position on |
| Pieces.PlayerClassOfClassList | www/src/ts/domops.ts:82-87 | a piece's class list carries the player class exactly when the player owns the piece |
| DomOps.Initial | www/src/index.ts:83-102 | the initial page is well formed, its boxes are empty, and every piece is in the inventory and displayed |
| DomOps.InitialWellFormed | www/src/index.ts:83-102 | the page after the inventories are filled has every piece exactly once, in its inventory |
| DomOps.Board.constructor | www/src/index.ts:83-102 | the page starts with empty boxes and all twelve pieces displayed in the inventory |
| DomOps.GetBox | www/src/ts/domops.ts:59-74 | the box holding a piece, which is unique; none exactly when the piece is in the inventory |
| DomOps.IsInInventory | www/src/ts/domops.ts:121-129 | true exactly when no box holds the piece |
| DomOps.TopOf | www/src/ts/domops.ts:30-45 | none exactly for an empty box |
| DomOps.TopOfIsChild | www/src/ts/domops.ts:30-45 | the top of a box is one of its children |
| DomOps.TopOfIsFirstLargest | www/src/ts/domops.ts:30-45 | the top of a box is none exactly for an empty box; otherwise a child of maximal size, the first such child |
| DomOps.Board.GetTopGobbletOnBox | www/src/ts/domops.ts:30-45 | the loop returns the top of the box: none iff empty, otherwise a child no smaller than any other |
| DomOps.IsTopGobbletPlayer | www/src/ts/domops.ts:77-89 | true exactly when the box has a top piece and the player owns it |
| DomOps.IsGobbletTopOnBox | www/src/ts/domops.ts:92-108 | true exactly when the piece is in some box and is displayed |
| DomOps.HideBox | www/src/ts/domops.ts:111-118 | changes no parent and keeps the page well formed |
| DomOps.HideBoxHidesOnlyThatBox | www/src/ts/domops.ts:111-118 | every child of the box is hidden; every other piece keeps its display |
| DomOps.Board.AllGobbletDisplayNoneOnBox | www/src/ts/domops.ts:111-118 | the loop leaves the page as HideBox describes |
| DomOps.Detach | www/src/ts/game.ts:234 | taking a piece from its parent removes exactly that piece from its box or from the inventory |
| DomOps.AppendChild | www/src/ts/game.ts:234 | appendChild makes the piece the last child of the box, out of the inventory, and keeps every piece in exactly one place |
| DomOps.Board.AppendChildTo | www/src/ts/game.ts:234 | the in-place update leaves the page as AppendChild describes and keeps it well formed |
| DomOps.Show | www/src/ts/game.ts:235 | changes no parent and keeps the page well formed (the same update is at game.ts:292) |
| DomOps.ShowOnlyThatPiece | www/src/ts/game.ts:235 | the piece is displayed and no other piece's display changes |
| DomOps.Board.SetDisplayBlock | www/src/ts/game.ts:235 | the in-place update leaves the page as Show describes (also used for game.ts:292) |
| Rules.InitialConsistent | www/src/index.ts:83-102 | the page initialize_inventory leaves satisfies the invariant the game keeps |
| Rules.CanPut | www/src/ts/game.ts:182-206 | a put on an empty box is allowed; an allowed piece is not already in the box and is larger than the box's top; in an ascending box it is allowed exactly when it is larger than the last child |
| Rules.LastIsLargest | www/src/ts/game.ts:182-206 | in an ascending box no child is larger than the last one, so can_put_gobblet's maximum is the last child |
| Rules.CanMove | www/src/ts/game.ts:240-253 | an allowed move starts from an occupied box and goes to another box; a move from an occupied box to an empty one is allowed |
| Rules.TopOfAscending | www/src/ts/domops.ts:30-45 | in a box ascending in size, the top is the last child |
| Rules.WithoutTop | www/src/ts/game.ts:285 | taking the top out of an ascending box leaves the children below it in order |
| Rules.PutLayout | www/src/ts/game.ts:230-236 | put_gobblet keeps every piece in exactly one place |
| Rules.MoveLayout | www/src/ts/game.ts:275-295 | move_gobblet keeps every piece in exactly one place |
| Rules.PutKeepsConsistent | www/src/ts/game.ts:230-236 | after a legal put, g is the new last child of box c; the other boxes are unchanged; g leaves the inventory; the box's old pieces are hidden; the page stays consistent |
| Rules.MoveKeepsConsistent | www/src/ts/game.ts:275-295 | a legal move has distinct boxes and moves exactly the last child of box a onto the end of box b; nothing else moves, the inventory is unchanged and the page stays consistent |
| Rules.MoveShownSet | www/src/ts/game.ts:277-292 | after a move, the pieces of box b are hidden and the uncovered piece of box a is displayed |
| Rules.MoveUncovers | www/src/ts/game.ts:287-293 | once the moved piece is appended, move_gobblet displays the new top of box a, if any, and changes no other display |
| Rules.ShownIffTop | www/src/ts/domops.ts:92-108 | under the invariant, a board piece is reported as top on its box exactly when it is the top of its box |
| Rules.TopIsShown | www/src/ts/game.ts:378-385 | the top of an occupied box is its last child, is displayed, and lies in that box |
| Rules.EnemyCanAct | www/src/ts/game.ts:490-504 | a passing inventory piece is larger than the top of box r2; a passing board piece is displayed and lies in a box other than r2 |
| Rules.EnemyAct | www/src/ts/game.ts:479-509 | the enemy's put or move keeps every piece in exactly one place |
| Rules.EnemyActKeepsConsistent | www/src/ts/game.ts:479-509 | every action random_select may take keeps the page consistent |
| Rules.BoxWithoutLargest | www/src/ts/game.ts:485-508 | some box holds no piece of size 2 |
| Rules.EnemyHasAction | www/src/ts/game.ts:485-508 | on a consistent page some white piece and box pass random_select's tests, so its loop can stop |
| Judging.Line | www/src/ts/game.ts:70-172 | the eight lines are three distinct boxes each |
| Judging.LineWinner | www/src/ts/game.ts:71-95 | one line scan gives 1 exactly when all three tops are the player's and -1 exactly when all three are the enemy's |
| Judging.LineWinnerOwned | www/src/ts/game.ts:71-95 | the scan of line k reports the side that owns the line |
| Judging.EmptyBreaksLine | www/src/ts/game.ts:76-79 | a line through an empty box is owned by nobody |
| Judging.OwnsLineBelowExists | www/src/ts/game.ts:90-93 | the win flag after k lines is set exactly when one of those lines is owned |
| Judging.TopAfterPut | www/src/ts/game.ts:182-206 | a piece larger than everything in a box becomes its top |
| Judging.PutNeverLoses | www/src/ts/game.ts:64-66 | a put on an unfinished board gives an unfinished board or a win for the side that put; never a draw or a loss |
| Judging.TopOfSwap | www/src/ts/domops.ts:30-45 | the top of a box does not depend on the pieces' colours |
| Judging.JudgeSymmetric | www/src/ts/game.ts:67-179 | swapping all colours swaps the two wins and keeps draw and unfinished |
| Judging.JudgeOf | www/src/ts/game.ts:175-178 | draw exactly when both sides own a line, a side's win exactly when only that side owns one, unfinished exactly when neither does |
| Judging.OneBoxUnfinished | www/src/ts/game.ts:67-179 | with at most one occupied box the game is unfinished |
| Judging.DrawBoards | www/src/ts/game.ts:64-66 | on the board DrawBefore, moving box 5 to box 2 is allowed and turns an unfinished board into one where each side owns a line |
| Judging.DrawMove | www/src/ts/game.ts:275-295 | on a consistent page with the board DrawBefore, move_gobblet from box 5 to box 2 keeps the page consistent and uncovers the enemy's piece on box 5 |
| Judging.MoveCanDraw | www/src/ts/game.ts:64-66 | on a consistent page, a legal move_gobblet can complete a line for each side at once; the page stays consistent and judge reports a draw |
| GameEngine.PlayerAction | www/src/ts/game.ts:400-448 | an accepted action keeps every piece in exactly one place, leaves box c occupied and g out of the inventory; a put on an empty box is always accepted; an accepted put appends g to box c; an accepted move comes from an occupied box other than c |
| GameEngine.PlayerActionPlacesSelected | www/src/ts/game.ts:400-448 | an accepted action puts the selected piece itself on top of the clicked box; it comes from the inventory or from the top of its former box; no other box changes and the page stays consistent |
| GameEngine.FirstActionUnfinished | www/src/ts/game.ts:38-51 | the enemy's opening action cannot decide the game |
| GameEngine.Game.constructor | www/src/ts/game.ts:38-51 | the player moves first, or the enemy acts once; either way the player then has the turn with nothing selected |
| GameEngine.Game.ScanLine | www/src/ts/game.ts:71-95 | the loop with early break computes LineWinner of the line |
| GameEngine.Game.ScanNumberedLine | www/src/ts/game.ts:71-95 | the scan of line k gives 1 or -1 exactly when the player or the enemy owns it |
| GameEngine.Game.Judge | www/src/ts/game.ts:67-179 | draw exactly when both sides own a line, unfinished exactly when neither does, otherwise the win of the side that does |
| GameEngine.Game.CanPutGobblet | www/src/ts/game.ts:182-206 | true exactly when every piece in the box, covered ones included, is strictly smaller than g |
| GameEngine.Game.CanMoveGobblet | www/src/ts/game.ts:240-253 | false when box a is empty; true when a is occupied and b empty; otherwise the size comparison of the tops; always false from a box to itself |
| GameEngine.Game.PutGobblet | www/src/ts/game.ts:230-236 | the page afterwards is PutLayout of the page before |
| GameEngine.Game.MoveGobblet | www/src/ts/game.ts:275-295 | the page afterwards is MoveLayout of the page before, including the early return for an empty box a |
| GameEngine.Game.ActionClickGobblet | www/src/ts/game.ts:321-355 | a click on a board piece is ignored; from idle, selects the clicked inventory piece; while selecting, unselects it if it is the selected piece and selects it otherwise; in other states nothing changes |
| GameEngine.Game.UnselectGobbletOnBoxIfNeeded | www/src/ts/game.ts:358-368 | true exactly when the box's top is the selected piece, and then the state is idle; the selection is kept |
| GameEngine.Game.JudgeAfterPlayer | www/src/ts/game.ts:410-433 | a decided board ends the game unchanged; otherwise one enemy action follows and judge decides between idle and game end |
| GameEngine.Game.ActionClickBox | www/src/ts/game.ts:371-476 | from idle, selects the box's top if it is the player's; while selecting, returns to idle when the box's top is the selected piece; a refused put or move changes nothing; an accepted one lands the piece and then concludes as JudgeAfterPlayer; a put clears the selection and a move keeps it; the invariant is kept |
| GameEngine.Game.RandomSelect | www/src/ts/game.ts:479-509 | the page changes by one action that passes the loop's tests, and stays consistent |
| GameEngine.Game.ActionEnemyTurn | www/src/ts/game.ts:512-538 | one enemy action, then game end on a decided board and idle otherwise; the selection is unchanged |

## Left out

- Rendering, the status messages (`update_game_message`), `console.log` and the dotted
  border that marks the selected piece (game.ts:54-62). None of them affects the state.
- Reading the attack order from the page (`get_attack_order`). The order is a parameter
  of the constructor.
- `Math.random`. `random_select` is modelled as an arbitrary choice of one passing (piece,
  box) pair. The model says nothing about the distribution of those choices or the number
  of rejected draws.
- `can_put_gobblet2`, `can_move_gobblet2` and `move_gobblet2` (game.ts:210-227,256-318).
  Nothing in the engine calls them.
- The event wiring in `www/src/index.ts`. The model assumes clicks on pieces come only
  from the player's pieces (index.ts:45-50) and that the page starts in the state
  `initialize_inventory` leaves.
- Parsing class names as strings (`startsWith`, `split`, `Number`). Class names are
  tokens, and each piece carries exactly the classes `gobblet`, `gobblet-size<n>` and its
  owner's class.
- `getElementsByClassName` and `getElementById`. The children of a box are its pieces,
  and piece and box numbers index the model directly.
- GameEngine.Game.ActionClickBox: three defensive branches are not written out. The
  `img == null` check (game.ts:382) is ruled out by the postcondition of
  `IsTopGobbletPlayer`. The `selecting_gobblet == null` branch (game.ts:393-396) is ruled
  out by the invariant `Game.Valid`. The `box1 == null` branch (game.ts:437-441) is ruled
  out by `Game.Valid` together with the postcondition of `IsGobbletTopOnBox`.
- GameEngine.Game.RandomSelect: the `continue` branches of the loop are not written out,
  because the choice is made among pairs that pass the tests.
- The transient states `EnemyTurn` and `JudgeTime` are in the state type. `JudgeTime` is
  never entered, as in the code. `EnemyTurn` is only passed through within one handler.
