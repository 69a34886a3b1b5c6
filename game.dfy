/** The game object of www/src/ts/game.ts: its state machine, the handlers for clicks on
    pieces and boxes, judge, and the enemy's random action. */
module GameEngine {
  import opened Wrappers
  import opened Pieces
  import opened DomOps
  import opened Rules
  import opened Judging

  datatype GameState =
    | BeforeStart
    | PlayerIdle
    | PlayerSelectingGobblet
    | EnemyTurn
    | JudgeTime
    | GameEnd

  datatype AttackOrder = PlayerFirst | EnemyFirst

  /** The page after one action of the enemy that random_select may take. */
  ghost predicate EnemyMoved(before: Layout, after: Layout)
    requires WellFormed(before)
  {
    exists r: GobbletId, r2 :: 0 <= r2 < BoxMaxNum && EnemyCanAct(before, r, r2) &&
      after == EnemyAct(before, r, r2)
  }

  /** The state judge leaves behind: the game goes on only while it is unfinished. */
  function StateAfter(j: JudgeValue): GameState
  {
    if j == Unfinished then PlayerIdle else GameEnd
  }

  /** What follows the player's action that produced mid: a decided board ends the game
      as it stands; otherwise the enemy takes one action and judge decides again. */
  ghost predicate Concluded(mid: Layout, final: Layout, state: GameState)
    requires WellFormed(mid)
  {
    if JudgeOf(mid.boxes) != Unfinished then final == mid && state == GameEnd
    else EnemyMoved(mid, final) && state == StateAfter(JudgeOf(final.boxes))
  }

  /** The player's action with the selected piece g on box c: a put when g is in the
      inventory, a move of the top of g's box otherwise; None when the rules refuse it. */
  function PlayerAction(l: Layout, g: Gobblet, c: nat): (r: Option<Layout>)
    requires WellFormed(l) && c < BoxMaxNum
    ensures r.Some? ==> WellFormed(r.value) && r.value.boxes[c] != [] && g !in r.value.reserve
    ensures g in l.reserve && l.boxes[c] == [] ==> r.Some?
    ensures r.Some? && g in l.reserve ==> r.value.boxes[c] == l.boxes[c] + [g]
    ensures r.Some? && g !in l.reserve ==>
      GetBox(l, g).value != c && l.boxes[GetBox(l, g).value] != []
  {
    if IsInInventory(l, g) then
      if CanPut(l.boxes[c], g) then Some(PutLayout(l, c, g)) else None
    else
      var a := GetBox(l, g).value;
      if CanMove(l.boxes, a, c) then Some(MoveLayout(l, a, c)) else None
  }

  /** An accepted player action lands the selected piece itself on top of box c: it leaves
      the inventory or the top of its former box, no other box changes, and the page stays
      consistent. */
  lemma PlayerActionPlacesSelected(l: Layout, g: Gobblet, c: nat)
    requires Consistent(l) && c < BoxMaxNum
    requires g in l.reserve || IsGobbletTopOnBox(l, g)
    requires PlayerAction(l, g, c).Some?
    ensures Consistent(PlayerAction(l, g, c).value)
    ensures PlayerAction(l, g, c).value.boxes[c] == l.boxes[c] + [g]
    ensures g in l.reserve ==>
      PlayerAction(l, g, c).value.boxes == l.boxes[c := l.boxes[c] + [g]] &&
      PlayerAction(l, g, c).value.reserve == l.reserve - {g}
    ensures g !in l.reserve ==>
      var a := GetBox(l, g).value;
      a != c && l.boxes[a] != [] && l.boxes[a][|l.boxes[a]| - 1] == g &&
      PlayerAction(l, g, c).value.boxes == l.boxes[a := l.boxes[a][..|l.boxes[a]| - 1]][c := l.boxes[c] + [g]] &&
      PlayerAction(l, g, c).value.reserve == l.reserve
  {
    if g in l.reserve {
      assert PlayerAction(l, g, c) == Some(PutLayout(l, c, g));
      PutKeepsConsistent(l, c, g);
    } else {
      var a := GetBox(l, g).value;
      assert PlayerAction(l, g, c) == Some(MoveLayout(l, a, c));
      ShownIffTop(l, g);
      TopOfAscending(l.boxes[a]);
      MoveKeepsConsistent(l, a, c);
    }
  }

  /** The first action of a game, taken by the enemy on the initial page, cannot decide
      it. */
  lemma FirstActionUnfinished(r: GobbletId, r2: nat)
    requires r2 < BoxMaxNum && EnemyCanAct(Initial(), r, r2)
    ensures Consistent(EnemyAct(Initial(), r, r2))
    ensures JudgeOf(EnemyAct(Initial(), r, r2).boxes) == Unfinished
  {
    var l := Initial();
    var g := Gobblet(Enemy, r);
    EveryGobbletIsKnown(g);
    InitialConsistent();
    PutKeepsConsistent(l, r2, g);
    OneBoxUnfinished(EnemyAct(l, r, r2).boxes, r2);
  }

  class Game {
    /** The page the game reads and changes. */
    const board: Board
    var state: GameState
    var selecting: Option<Gobblet>

    /** The page is consistent, and while a piece is selected it is one of the player's,
        either in the inventory or displayed on top of a box. */
    ghost predicate Valid()
      reads this, board
    {
      Consistent(board.Snapshot()) &&
      (state == PlayerSelectingGobblet ==>
        selecting.Some? && selecting.value.owner == Player &&
        (selecting.value in board.reserve || IsGobbletTopOnBox(board.Snapshot(), selecting.value)))
    }

    /** constructor: the player moves first, or the enemy acts once right away; either way
        the player then has the turn with nothing selected. */
    constructor (order: AttackOrder, b: Board)
      requires b.Snapshot() == Initial()
      modifies b
      ensures board == b && Valid()
      ensures state == PlayerIdle && selecting == None
      ensures order == PlayerFirst ==> b.Snapshot() == Initial()
      ensures order == EnemyFirst ==> EnemyMoved(Initial(), b.Snapshot())
    {
      board := b;
      state := BeforeStart;
      selecting := None;
      new;
      InitialConsistent();
      if order == PlayerFirst {
        state := PlayerIdle;
      } else {
        state := EnemyTurn;
        ghost var before := board.Snapshot();
        assert before == Initial();
        ActionEnemyTurn();
        assert EnemyMoved(before, board.Snapshot());
        var r: GobbletId, r2 :| 0 <= r2 < BoxMaxNum && EnemyCanAct(Initial(), r, r2) &&
          board.Snapshot() == EnemyAct(Initial(), r, r2);
        FirstActionUnfinished(r, r2);
        assert board.Snapshot().boxes == board.boxes;
        assert state == StateAfter(Unfinished);
      }
    }

    /** One line scan of judge: the code of the line's first box, unless it is 0 or a later
        box of the line carries another code. */
    method ScanLine(line: seq<nat>) returns (v: int)
      requires |line| == 3 && forall i :: 0 <= i < 3 ==> line[i] < |board.boxes|
      ensures v == LineWinner(board.boxes, line)
    {
      var topGob := board.GetTopGobbletOnBox(line[0]);
      v := WhichGobblet(ClassesOf(topGob));
      assert v == OwnerAt(board.boxes, line[0]);
      if v == 0 {
        return;
      }
      var w := 1;
      while w < |line|
        invariant 1 <= w <= |line|
        invariant forall j :: 1 <= j < w ==> OwnerAt(board.boxes, line[j]) == v
      {
        var topGob2 := board.GetTopGobbletOnBox(line[w]);
        var v2 := WhichGobblet(ClassesOf(topGob2));
        assert v2 == OwnerAt(board.boxes, line[w]);
        if v != v2 {
          return 0;
        }
        w := w + 1;
      }
    }

    /** The scan of line k, reported as which side owns it. */
    method ScanNumberedLine(k: nat) returns (v: int)
      requires |board.boxes| == BoxMaxNum && k < 8
      ensures v == 1 <==> LineOwnedBy(board.boxes, k, Player)
      ensures v == -1 <==> LineOwnedBy(board.boxes, k, Enemy)
      ensures v == 0 || v == 1 || v == -1
    {
      v := ScanLine(Line(k));
      LineWinnerOwned(board.boxes, k);
    }

    /** judge: scans the rows, the columns and both diagonals, and maps the two win flags
        to the verdict. */
    method Judge() returns (r: JudgeValue)
      requires |board.boxes| == BoxMaxNum
      ensures r == JudgeOf(board.boxes)
      ensures r == Draw <==> Wins(board.boxes, Player) && Wins(board.boxes, Enemy)
      ensures r == Unfinished <==> !Wins(board.boxes, Player) && !Wins(board.boxes, Enemy)
    {
      var playerWin := false;
      var enemyWin := false;
      var k := 0;
      // rows (k = h), then columns (k = BoxH + w)
      while k < BoxH + BoxW
        invariant 0 <= k <= BoxH + BoxW
        invariant playerWin == OwnsLineBelow(board.boxes, k, Player)
        invariant enemyWin == OwnsLineBelow(board.boxes, k, Enemy)
      {
        var v := ScanNumberedLine(k);
        if v != 0 {
          if v == 1 {
            playerWin := true;
          } else {
            enemyWin := true;
          }
        }
        k := k + 1;
      }
      // the two diagonals
      while k < 8
        invariant BoxH + BoxW <= k <= 8
        invariant playerWin == OwnsLineBelow(board.boxes, k, Player)
        invariant enemyWin == OwnsLineBelow(board.boxes, k, Enemy)
      {
        var v := ScanNumberedLine(k);
        if v != 0 {
          if v == 1 {
            playerWin := true;
          } else {
            enemyWin := true;
          }
        }
        k := k + 1;
      }
      OwnsLineBelowExists(board.boxes, 8, Player);
      OwnsLineBelowExists(board.boxes, 8, Enemy);
      if playerWin && enemyWin {
        r := Draw;
      } else if playerWin {
        r := PlayerWin;
      } else if enemyWin {
        r := EnemyWin;
      } else {
        r := Unfinished;
      }
    }

    /** can_put_gobblet: the largest size class among the box's pieces must be below the
        first size class of g. */
    method CanPutGobblet(c: nat, g: Gobblet) returns (ok: bool)
      requires c < |board.boxes|
      ensures ok <==> CanPut(board.boxes[c], g)
    {
      var gobblets := board.boxes[c];
      var maxSize := -1;
      var i := 0;
      while i < |gobblets|
        invariant 0 <= i <= |gobblets|
        invariant maxSize >= -1
        invariant forall j :: 0 <= j < i ==> gobblets[j].size <= maxSize
        invariant maxSize >= 0 ==> exists j :: 0 <= j < i && gobblets[j].size == maxSize
      {
        var cs := ClassList(gobblets[i]);
        var before := maxSize;
        var j := 0;
        while j < |cs|
          invariant 0 <= j <= |cs|
          invariant maxSize == if j > 1 then (if before < gobblets[i].size then gobblets[i].size else before) else before
        {
          if cs[j].SizeClass? {
            maxSize := if maxSize < cs[j].n then cs[j].n else maxSize;
          }
          j := j + 1;
        }
        i := i + 1;
      }
      var gobsize: int := -1;
      var gcs := ClassList(g);
      assert !gcs[0].SizeClass? && gcs[1] == SizeClass(g.size);
      var k := 0;
      while k < |gcs|
        invariant 0 <= k <= |gcs|
        invariant gobsize == -1 && forall j :: 0 <= j < k ==> !gcs[j].SizeClass?
      {
        if gcs[k].SizeClass? {
          gobsize := gcs[k].n;
          break;
        }
        k := k + 1;
      }
      assert gobsize == g.size;
      ok := maxSize < gobsize;
      if !ok && gobblets != [] {
        var j :| 0 <= j < |gobblets| && gobblets[j].size == maxSize;
        assert gobblets[j] in gobblets;
      }
    }

    /** can_move_gobblet: box a must have a top piece, and box b none or a smaller one. */
    method CanMoveGobblet(a: nat, b: nat) returns (ok: bool)
      requires a < |board.boxes| && b < |board.boxes|
      ensures ok <==> CanMove(board.boxes, a, b)
      ensures board.boxes[a] == [] ==> !ok
      ensures board.boxes[a] != [] && board.boxes[b] == [] ==> ok
      ensures a == b ==> !ok
    {
      var gob1 := board.GetTopGobbletOnBox(a);
      if gob1.None? {
        return false;
      }
      var gob2 := board.GetTopGobbletOnBox(b);
      if gob2.None? {
        return true;
      }
      var gobsize1 := GetGobbletSize(ClassList(gob1.value));
      var gobsize2 := GetGobbletSize(ClassList(gob2.value));
      SizeOfClassList(gob1.value);
      SizeOfClassList(gob2.value);
      return gobsize1 > gobsize2;
    }

    /** put_gobblet: hides the pieces of box c, appends g to it and displays g. */
    method PutGobblet(c: nat, g: Gobblet)
      requires board.Valid() && c < BoxMaxNum
      modifies board
      ensures board.Snapshot() == PutLayout(old(board.Snapshot()), c, g)
    {
      board.AllGobbletDisplayNoneOnBox(c);
      board.AppendChildTo(c, g);
      board.SetDisplayBlock(g);
    }

    /** move_gobblet: hides the pieces of box b, appends the top of box a to b, and
        displays the piece that becomes the top of a. */
    method MoveGobblet(a: nat, b: nat)
      requires board.Valid() && a < BoxMaxNum && b < BoxMaxNum
      modifies board
      ensures board.Snapshot() == MoveLayout(old(board.Snapshot()), a, b)
    {
      board.AllGobbletDisplayNoneOnBox(b);
      var gob1 := board.GetTopGobbletOnBox(a);
      if gob1.None? {
        return;
      }
      board.AppendChildTo(b, gob1.value);
      var newGob1 := board.GetTopGobbletOnBox(a);
      if newGob1.Some? {
        board.SetDisplayBlock(newGob1.value);
      }
    }

    /** action_click_gobblet on one of the player's pieces: ignored while the piece is on
        the board; otherwise selects it, or unselects it when it is the selected piece. */
    method ActionClickGobblet(g: Gobblet)
      requires Valid() && g.owner == Player
      modifies this
      ensures Valid()
      ensures g !in board.reserve || (old(state) != PlayerIdle && old(state) != PlayerSelectingGobblet) ==>
        state == old(state) && selecting == old(selecting)
      ensures g in board.reserve && old(state) == PlayerIdle ==>
        state == PlayerSelectingGobblet && selecting == Some(g)
      ensures g in board.reserve && old(state) == PlayerSelectingGobblet && old(selecting) == Some(g) ==>
        state == PlayerIdle && selecting == None
      ensures g in board.reserve && old(state) == PlayerSelectingGobblet && old(selecting) != Some(g) ==>
        state == PlayerSelectingGobblet && selecting == Some(g)
    {
      var box := GetBox(board.Snapshot(), g);
      if box.Some? {
        return;
      }
      if state == PlayerIdle {
        state := PlayerSelectingGobblet;
        selecting := Some(g);
        return;
      } else if state == PlayerSelectingGobblet {
        if Some(g) == selecting {
          state := PlayerIdle;
          selecting := None;
        } else {
          selecting := Some(g);
        }
        return;
      }
    }

    /** unselect_gobblet_on_box_if_needed: when the top of box c is the selected piece,
        goes back to idle (the selection itself is left in place). */
    method UnselectGobbletOnBoxIfNeeded(c: nat) returns (res: bool)
      requires c < |board.boxes|
      modifies this
      ensures res <==> TopOf(board.boxes[c]).Some? && TopOf(board.boxes[c]) == selecting
      ensures res ==> state == PlayerIdle
      ensures !res ==> state == old(state)
      ensures selecting == old(selecting)
    {
      var img := board.GetTopGobbletOnBox(c);
      if img.None? {
        return false;
      }
      if img == selecting {
        state := PlayerIdle;
        return true;
      }
      return false;
    }

    /** The common tail of both branches of action_click_box after a legal action: judge,
        then end the game or let the enemy act. */
    method JudgeAfterPlayer()
      requires Consistent(board.Snapshot())
      modifies this, board
      ensures Consistent(board.Snapshot())
      ensures Concluded(old(board.Snapshot()), board.Snapshot(), state)
      ensures selecting == old(selecting)
    {
      var resJudge := Judge();
      if resJudge == PlayerWin {
        state := GameEnd;
        return;
      } else if resJudge == EnemyWin {
        state := GameEnd;
        return;
      } else if resJudge == Draw {
        state := GameEnd;
        return;
      }
      state := EnemyTurn;
      ActionEnemyTurn();
    }

    /** action_click_box on box c. */
    method ActionClickBox(c: nat)
      requires Valid() && c < BoxMaxNum
      modifies this, board
      ensures Valid()
      ensures old(state) != PlayerIdle && old(state) != PlayerSelectingGobblet ==>
        state == old(state) && selecting == old(selecting) && board.Snapshot() == old(board.Snapshot())
      ensures old(state) == PlayerIdle ==>
        board.Snapshot() == old(board.Snapshot()) &&
        if IsTopGobbletPlayer(old(board.Snapshot()), c) then
          state == PlayerSelectingGobblet && selecting == TopOf(old(board.boxes[c]))
        else
          state == PlayerIdle && selecting == old(selecting)
      ensures old(state) == PlayerSelectingGobblet && TopOf(old(board.boxes[c])) == old(selecting) ==>
        state == PlayerIdle && selecting == old(selecting) && board.Snapshot() == old(board.Snapshot())
      ensures old(state) == PlayerSelectingGobblet && TopOf(old(board.boxes[c])) != old(selecting) ==>
        match PlayerAction(old(board.Snapshot()), old(selecting).value, c)
        case None =>
          state == old(state) && selecting == old(selecting) && board.Snapshot() == old(board.Snapshot())
        case Some(mid) =>
          selecting == (if old(selecting).value in old(board.reserve) then None else old(selecting)) &&
          Concluded(mid, board.Snapshot(), state)
    {
      if state == PlayerIdle {
        if !IsTopGobbletPlayer(board.Snapshot(), c) {
          return;
        }
        var img := board.GetTopGobbletOnBox(c);
        TopIsShown(board.Snapshot(), c);
        selecting := img;
        state := PlayerSelectingGobblet;
        return;
      } else if state == PlayerSelectingGobblet {
        var res := UnselectGobbletOnBoxIfNeeded(c);
        if res {
          return;
        }
        var g := selecting.value;
        if IsInInventory(board.Snapshot(), g) {
          var ok := CanPutGobblet(c, g);
          if !ok {
            return;
          }
          PutKeepsConsistent(board.Snapshot(), c, g);
          PutGobblet(c, g);
          selecting := None;
          JudgeAfterPlayer();
          return;
        } else {
          var box1 := GetBox(board.Snapshot(), g).value;
          var ok := CanMoveGobblet(box1, c);
          if !ok {
            return;
          }
          MoveKeepsConsistent(board.Snapshot(), box1, c);
          MoveGobblet(box1, c);
          JudgeAfterPlayer();
          return;
        }
      }
    }

    /** random_select: the action the loop settles on, a white piece r and a box r2 that
        pass its tests (one always exists), then the put or the move. */
    method RandomSelect()
      requires Consistent(board.Snapshot())
      modifies board
      ensures EnemyMoved(old(board.Snapshot()), board.Snapshot())
      ensures Consistent(board.Snapshot())
    {
      EnemyHasAction(board.Snapshot());
      var r: GobbletId, r2 :| 0 <= r2 < BoxMaxNum &&
        EnemyCanAct(board.Snapshot(), r, r2);
      EnemyActKeepsConsistent(board.Snapshot(), r, r2);
      var gob := Gobblet(Enemy, r);
      if IsInInventory(board.Snapshot(), gob) {
        PutGobblet(r2, gob);
      } else {
        var box1 := GetBox(board.Snapshot(), gob).value;
        MoveGobblet(box1, r2);
      }
    }

    /** action_enemy_turn: one enemy action, then judge: the game ends on a decided board
        and otherwise returns to the player. */
    method ActionEnemyTurn()
      requires Consistent(board.Snapshot())
      modifies this, board
      ensures Consistent(board.Snapshot())
      ensures EnemyMoved(old(board.Snapshot()), board.Snapshot())
      ensures state == StateAfter(JudgeOf(board.boxes))
      ensures selecting == old(selecting)
    {
      RandomSelect();
      var resJudge := Judge();
      if resJudge == PlayerWin {
        state := GameEnd;
        return;
      } else if resJudge == EnemyWin {
        state := GameEnd;
        return;
      } else if resJudge == Draw {
        state := GameEnd;
        return;
      }
      state := PlayerIdle;
    }
  }
}
