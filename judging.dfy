/** The verdict of judge in www/src/ts/game.ts: which of the eight lines of the 3x3 board
    carry three top pieces of the same owner, and what that means for the game. */
module Judging {
  import opened Wrappers
  import opened Pieces
  import opened DomOps
  import opened Rules

  datatype JudgeValue = EnemyWin | Unfinished | PlayerWin | Draw

  const BoxH: nat := 3
  const BoxW: nat := 3

  /** The eight lines judge scans: rows (k = h), columns (k = 3 + w), the diagonal from
      box 0 (k = 6) and the diagonal from box 2 (k = 7). */
  function Line(k: nat): (line: seq<nat>)
    requires k < 8
    ensures |line| == 3 && forall i :: 0 <= i < 3 ==> line[i] < BoxMaxNum
    ensures line[0] != line[1] && line[1] != line[2] && line[0] != line[2]
  {
    if k < BoxH then [k * BoxW, k * BoxW + 1, k * BoxW + 2]
    else if k < BoxH + BoxW then [k - BoxH, BoxW + (k - BoxH), 2 * BoxW + (k - BoxH)]
    else if k == BoxH + BoxW then [0, BoxW + 1, 2 * BoxW + 2]
    else [BoxW - 1, BoxW + (BoxW - 2), 2 * BoxW]
  }

  /** Box c has a top piece and o owns it. */
  predicate Holds(boxes: seq<seq<Gobblet>>, c: nat, o: Owner)
    requires c < |boxes|
  {
    TopOf(boxes[c]).Some? && TopOf(boxes[c]).value.owner == o
  }

  /** The which_gobblet code of the top piece of box c. */
  function OwnerAt(boxes: seq<seq<Gobblet>>, c: nat): int
    requires c < |boxes|
  {
    OwnerCode(TopOf(boxes[c]))
  }

  /** The outcome of one line scan of judge: the code of the first box when the two
      others carry the same non-zero code, otherwise 0. */
  function LineWinner(boxes: seq<seq<Gobblet>>, line: seq<nat>): (v: int)
    requires |line| == 3 && forall i :: 0 <= i < 3 ==> line[i] < |boxes|
    ensures -1 <= v <= 1
    ensures v == 1 <==> forall i :: 0 <= i < 3 ==> Holds(boxes, line[i], Player)
    ensures v == -1 <==> forall i :: 0 <= i < 3 ==> Holds(boxes, line[i], Enemy)
  {
    var v := OwnerAt(boxes, line[0]);
    if v != 0 && OwnerAt(boxes, line[1]) == v && OwnerAt(boxes, line[2]) == v then v else 0
  }

  /** The three boxes of line k have top pieces, all owned by o. */
  predicate LineOwnedBy(boxes: seq<seq<Gobblet>>, k: nat, o: Owner)
    requires |boxes| == BoxMaxNum && k < 8
  {
    forall i :: 0 <= i < 3 ==> Holds(boxes, Line(k)[i], o)
  }

  predicate Wins(boxes: seq<seq<Gobblet>>, o: Owner)
    requires |boxes| == BoxMaxNum
  {
    exists k :: 0 <= k < 8 && LineOwnedBy(boxes, k, o)
  }

  /** Some line numbered below k is owned by o: what judge's flag for o records after
      scanning k lines. */
  predicate OwnsLineBelow(boxes: seq<seq<Gobblet>>, k: nat, o: Owner)
    requires |boxes| == BoxMaxNum && k <= 8
  {
    k > 0 && (OwnsLineBelow(boxes, k - 1, o) || LineOwnedBy(boxes, k - 1, o))
  }

  lemma {:induction false} OwnsLineBelowExists(boxes: seq<seq<Gobblet>>, k: nat, o: Owner)
    requires |boxes| == BoxMaxNum && k <= 8
    ensures OwnsLineBelow(boxes, k, o) <==> exists j :: 0 <= j < k && LineOwnedBy(boxes, j, o)
  {
    if k > 0 {
      OwnsLineBelowExists(boxes, k - 1, o);
    }
  }

  function WinOf(o: Owner): JudgeValue
  {
    if o == Player then PlayerWin else EnemyWin
  }

  /** The verdict: both sides owning a line is a draw (possible after a move), one side
      owning a line is that side's win, and otherwise the game goes on. */
  function JudgeOf(boxes: seq<seq<Gobblet>>): (v: JudgeValue)
    requires |boxes| == BoxMaxNum
    ensures v == Draw <==> Wins(boxes, Player) && Wins(boxes, Enemy)
    ensures v == PlayerWin <==> Wins(boxes, Player) && !Wins(boxes, Enemy)
    ensures v == EnemyWin <==> !Wins(boxes, Player) && Wins(boxes, Enemy)
    ensures v == Unfinished <==> !Wins(boxes, Player) && !Wins(boxes, Enemy)
  {
    var p := Wins(boxes, Player);
    var e := Wins(boxes, Enemy);
    if p && e then Draw else if p then PlayerWin else if e then EnemyWin else Unfinished
  }

  /** A line owned by a side is exactly what the scan of that line reports. */
  lemma LineWinnerOwned(boxes: seq<seq<Gobblet>>, k: nat)
    requires |boxes| == BoxMaxNum && k < 8
    ensures LineWinner(boxes, Line(k)) == 1 <==> LineOwnedBy(boxes, k, Player)
    ensures LineWinner(boxes, Line(k)) == -1 <==> LineOwnedBy(boxes, k, Enemy)
  {
  }

  /** An empty box breaks every line through it. */
  lemma EmptyBreaksLine(boxes: seq<seq<Gobblet>>, k: nat, i: nat, o: Owner)
    requires |boxes| == BoxMaxNum && k < 8 && i < 3 && boxes[Line(k)[i]] == []
    ensures !LineOwnedBy(boxes, k, o)
  {
    TopOfIsFirstLargest(boxes[Line(k)[i]]);
  }

  /** The top of a box after a piece larger than all its pieces is appended is that
      piece. */
  lemma TopAfterPut(s: seq<Gobblet>, g: Gobblet)
    requires CanPut(s, g)
    ensures TopOf(s + [g]) == Some(g)
  {
    assert (s + [g])[..|s|] == s;
    TopOfIsChild(s);
  }

  function Opponent(o: Owner): Owner
  {
    if o == Player then Enemy else Player
  }

  /** A put can never hand the other side a line nor cause a draw: from an unfinished
      board, the verdict after a legal put is either unfinished or a win for the side that
      put. */
  lemma PutNeverLoses(boxes: seq<seq<Gobblet>>, c: nat, g: Gobblet)
    requires |boxes| == BoxMaxNum && c < BoxMaxNum && CanPut(boxes[c], g)
    requires JudgeOf(boxes) == Unfinished
    ensures JudgeOf(boxes[c := boxes[c] + [g]]) in {Unfinished, WinOf(g.owner)}
  {
    var boxes' := boxes[c := boxes[c] + [g]];
    TopAfterPut(boxes[c], g);
    assert !Wins(boxes', Opponent(g.owner)) by {
      forall k | 0 <= k < 8 ensures !LineOwnedBy(boxes', k, Opponent(g.owner)) {
        var line := Line(k);
        if LineOwnedBy(boxes', k, Opponent(g.owner)) {
          forall i | 0 <= i < 3 ensures Holds(boxes, line[i], Opponent(g.owner)) {
            assert Holds(boxes', line[i], Opponent(g.owner));
          }
          assert LineOwnedBy(boxes, k, Opponent(g.owner));
        }
      }
    }
  }

  /** Swapping the colours of every piece on the board. */
  function SwapPiece(g: Gobblet): Gobblet
  {
    Gobblet(Opponent(g.owner), g.id)
  }

  function SwapBox(s: seq<Gobblet>): (r: seq<Gobblet>)
    ensures |r| == |s| && forall i :: 0 <= i < |s| ==> r[i] == SwapPiece(s[i])
  {
    if s == [] then [] else SwapBox(s[..|s| - 1]) + [SwapPiece(s[|s| - 1])]
  }

  function SwapBoard(boxes: seq<seq<Gobblet>>): (r: seq<seq<Gobblet>>)
    ensures |r| == |boxes| && forall c :: 0 <= c < |boxes| ==> r[c] == SwapBox(boxes[c])
  {
    seq(|boxes|, c requires 0 <= c < |boxes| => SwapBox(boxes[c]))
  }

  /** The top piece does not depend on colour. */
  lemma {:induction false} TopOfSwap(s: seq<Gobblet>)
    ensures TopOf(SwapBox(s)) == if TopOf(s).None? then None else Some(SwapPiece(TopOf(s).value))
  {
    if s != [] {
      var p := s[..|s| - 1];
      assert SwapBox(s)[..|s| - 1] == SwapBox(p);
      TopOfSwap(p);
    }
  }

  function Mirror(j: JudgeValue): JudgeValue
  {
    match j
    case PlayerWin => EnemyWin
    case EnemyWin => PlayerWin
    case _ => j
  }

  /** judge treats both sides alike: on the board with every colour swapped the verdict
      swaps the two wins and keeps draw and unfinished. */
  lemma JudgeSymmetric(boxes: seq<seq<Gobblet>>)
    requires |boxes| == BoxMaxNum
    ensures JudgeOf(SwapBoard(boxes)) == Mirror(JudgeOf(boxes))
  {
    var sw := SwapBoard(boxes);
    forall c, o | 0 <= c < BoxMaxNum ensures Holds(sw, c, Opponent(o)) <==> Holds(boxes, c, o) {
      TopOfSwap(boxes[c]);
    }
    forall k, o | 0 <= k < 8 ensures LineOwnedBy(sw, k, Opponent(o)) <==> LineOwnedBy(boxes, k, o) {
    }
    assert Wins(sw, Enemy) <==> Wins(boxes, Player) by {
      if Wins(boxes, Player) {
        var k :| 0 <= k < 8 && LineOwnedBy(boxes, k, Player);
        assert LineOwnedBy(sw, k, Enemy);
      }
      if Wins(sw, Enemy) {
        var k :| 0 <= k < 8 && LineOwnedBy(sw, k, Enemy);
        assert LineOwnedBy(boxes, k, Player);
      }
    }
    assert Wins(sw, Player) <==> Wins(boxes, Enemy) by {
      if Wins(boxes, Enemy) {
        var k :| 0 <= k < 8 && LineOwnedBy(boxes, k, Enemy);
        assert LineOwnedBy(sw, k, Player);
      }
      if Wins(sw, Player) {
        var k :| 0 <= k < 8 && LineOwnedBy(sw, k, Player);
        assert LineOwnedBy(boxes, k, Enemy);
      }
    }
  }

  /** With at most one occupied box no line can be owned, so the game is unfinished; this
      is the board after the first action of a game. */
  lemma OneBoxUnfinished(boxes: seq<seq<Gobblet>>, c: nat)
    requires |boxes| == BoxMaxNum && c < BoxMaxNum
    requires forall d :: 0 <= d < BoxMaxNum && d != c ==> boxes[d] == []
    ensures JudgeOf(boxes) == Unfinished
  {
    forall k, o | 0 <= k < 8 ensures !LineOwnedBy(boxes, k, o) {
      var i := if Line(k)[0] != c then 0 else 1;
      EmptyBreaksLine(boxes, k, i, o);
    }
  }

  /** The board before the drawing move: the player holds boxes 0 and 1, the enemy boxes
      3 and 4, and the player's large piece covers the enemy's middle one on box 5. */
  function DrawBefore(): seq<seq<Gobblet>>
  {
    [[Gobblet(Player, 0)], [Gobblet(Player, 1)], [],
     [Gobblet(Enemy, 0)], [Gobblet(Enemy, 1)],
     [Gobblet(Enemy, 2), Gobblet(Player, 4)], [], [], []]
  }

  /** On DrawBefore, moving box 5 to box 2 is legal and turns an unfinished board into one
      where the player owns the top row and the enemy the middle row. */
  lemma DrawBoards()
    ensures CanMove(DrawBefore(), 5, 2) && JudgeOf(DrawBefore()) == Unfinished
    ensures JudgeOf(DrawBefore()[5 := [Gobblet(Enemy, 2)]][2 := [Gobblet(Player, 4)]]) == Draw
  {
    var before := DrawBefore();
    var after := before[5 := [Gobblet(Enemy, 2)]][2 := [Gobblet(Player, 4)]];
    assert TopOf(before[5]) == Some(Gobblet(Player, 4));
    forall k, o | 0 <= k < 8 ensures !LineOwnedBy(before, k, o) {
      if k == 1 {
        assert !Holds(before, 5, Enemy);
        assert !Holds(before, 3, Player);
      } else {
        var i := if k == 2 || k == 5 || k == 7 then 0 else 2;
        EmptyBreaksLine(before, k, i, o);
      }
    }
    assert LineOwnedBy(after, 0, Player);
    assert LineOwnedBy(after, 1, Enemy);
  }

  /** move_gobblet from box 5 to box 2 on a consistent page with the board DrawBefore. */
  lemma DrawMove(l: Layout)
    requires Consistent(l) && l.boxes == DrawBefore()
    ensures Consistent(MoveLayout(l, 5, 2))
    ensures MoveLayout(l, 5, 2).boxes ==
      DrawBefore()[5 := [Gobblet(Enemy, 2)]][2 := [Gobblet(Player, 4)]]
  {
    var before := l.boxes;
    assert TopOf(before[5]) == Some(Gobblet(Player, 4));
    MoveKeepsConsistent(l, 5, 2);
    assert before[5][..|before[5]| - 1] == [Gobblet(Enemy, 2)];
    assert before[2] + [before[5][|before[5]| - 1]] == [Gobblet(Player, 4)];
  }

  /** A move can give both sides a line at once, which judge reports as a draw: on a
      consistent page with the board DrawBefore, move_gobblet from box 5 to box 2 is
      legal, keeps the page consistent, completes the player's top row and uncovers the
      enemy piece that completes the enemy's middle row. */
  lemma MoveCanDraw(l: Layout)
    requires Consistent(l) && l.boxes == DrawBefore()
    ensures CanMove(l.boxes, 5, 2) && JudgeOf(l.boxes) == Unfinished
    ensures Consistent(MoveLayout(l, 5, 2))
    ensures JudgeOf(MoveLayout(l, 5, 2).boxes) == Draw
  {
    DrawBoards();
    DrawMove(l);
  }
}
