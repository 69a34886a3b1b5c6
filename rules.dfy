/** The placement and movement rules of www/src/ts/game.ts (can_put_gobblet,
    can_move_gobblet, put_gobblet, move_gobblet), the stacking invariant they keep, and
    the actions random_select may take for the enemy. */
module Rules {
  import opened Wrappers
  import opened Pieces
  import opened DomOps

  /** Sizes strictly increase along a box's children, so the last child is the largest. */
  predicate Ascending(s: seq<Gobblet>)
  {
    forall i, j :: 0 <= i < j < |s| ==> s[i].size < s[j].size
  }

  ghost predicate Stacked(l: Layout)
  {
    forall c :: 0 <= c < |l.boxes| ==> Ascending(l.boxes[c])
  }

  /** In every box exactly the last child is displayed. */
  ghost predicate TopsShown(l: Layout)
  {
    forall c, i :: 0 <= c < |l.boxes| && 0 <= i < |l.boxes[c]| ==>
      (l.boxes[c][i] in l.shown <==> i == |l.boxes[c]| - 1)
  }

  /** What the game keeps true of the page between two actions. */
  ghost predicate Consistent(l: Layout)
  {
    WellFormed(l) && Stacked(l) && TopsShown(l)
  }

  /** The page initialize_inventory leaves satisfies the invariant: its boxes are empty. */
  lemma InitialConsistent()
    ensures Consistent(Initial())
  {
    var l := Initial();
    assert Stacked(l) && TopsShown(l) by {
      forall c | 0 <= c < |l.boxes| ensures l.boxes[c] == [] { }
    }
  }

  /** The rule can_put_gobblet decides: every piece already in the box, hidden ones
      included, is strictly smaller than g. */
  predicate CanPut(s: seq<Gobblet>, g: Gobblet): (ok: bool)
    ensures s == [] ==> ok
    ensures ok ==> g !in s
    ensures ok ==> TopOf(s).None? || TopOf(s).value.size < g.size
    ensures Ascending(s) && s != [] ==> (ok <==> s[|s| - 1].size < g.size)
  {
    TopOfIsChild(s);
    LastIsLargest(s);
    forall p :: p in s ==> p.size < g.size
  }

  /** In a box kept ascending, no child is larger than the last one. */
  lemma LastIsLargest(s: seq<Gobblet>)
    ensures Ascending(s) && s != [] ==> forall p :: p in s ==> p.size <= s[|s| - 1].size
  {
    if Ascending(s) && s != [] {
      forall p | p in s ensures p.size <= s[|s| - 1].size {
        var i :| 0 <= i < |s| && s[i] == p;
      }
    }
  }

  /** The rule can_move_gobblet decides: box a has a top piece and box b has none or a
      strictly smaller one. */
  predicate CanMove(boxes: seq<seq<Gobblet>>, a: nat, b: nat): (ok: bool)
    requires a < |boxes| && b < |boxes|
    ensures ok ==> boxes[a] != [] && a != b
    ensures boxes[a] != [] && boxes[b] == [] ==> ok
  {
    TopOf(boxes[a]).Some? &&
    (TopOf(boxes[b]).None? || TopOf(boxes[b]).value.size < TopOf(boxes[a]).value.size)
  }

  /** In a box kept ascending, the top piece is the last child. */
  lemma TopOfAscending(s: seq<Gobblet>)
    requires Ascending(s) && s != []
    ensures TopOf(s) == Some(s[|s| - 1])
  {
    var p := s[..|s| - 1];
    if TopOf(p).Some? {
      var k :| 0 <= k < |p| && p[k] == TopOf(p).value;
      assert s[k] == p[k];
    }
  }

  lemma {:induction false} WithoutAbsent(s: seq<Gobblet>, g: Gobblet)
    requires g !in s
    ensures Without(s, g) == s
  {
    if s != [] {
      var p := s[..|s| - 1];
      assert s == p + [s[|s| - 1]];
      WithoutAbsent(p, g);
      assert Without(s, g) == Without(p, g) + [s[|s| - 1]];
    }
  }

  /** Removing the top child of an ascending box leaves the others in order. */
  lemma WithoutTop(s: seq<Gobblet>)
    requires Ascending(s) && s != []
    ensures Without(s, s[|s| - 1]) == s[..|s| - 1]
  {
    var p := s[..|s| - 1];
    assert s[|s| - 1] !in p by {
      forall i | 0 <= i < |p| ensures p[i] != s[|s| - 1] {
        assert p[i].size < s[|s| - 1].size;
      }
    }
    WithoutAbsent(p, s[|s| - 1]);
  }

  /** put_gobblet as a value: hide the box's pieces, append g to it, display g. */
  function PutLayout(l: Layout, c: nat, g: Gobblet): (r: Layout)
    requires WellFormed(l) && c < BoxMaxNum
    ensures WellFormed(r)
  {
    var hidden := HideBox(l, c);
    Show(AppendChild(hidden, c, g), g)
  }

  /** move_gobblet as a value: hide the pieces of box b; if box a has a top piece, append
      it to b and display the new top piece of a, if any. */
  function MoveLayout(l: Layout, a: nat, b: nat): (r: Layout)
    requires WellFormed(l) && a < BoxMaxNum && b < BoxMaxNum
    ensures WellFormed(r)
  {
    var hidden := HideBox(l, b);
    match TopOf(hidden.boxes[a])
    case None => hidden
    case Some(g1) =>
      var moved := AppendChild(hidden, b, g1);
      match TopOf(moved.boxes[a])
      case None => moved
      case Some(g2) => Show(moved, g2)
  }

  /** A put that passed can_put_gobblet makes g the new top of box c and keeps the page
      consistent; the other boxes are unchanged and g leaves the inventory. */
  lemma PutKeepsConsistent(l: Layout, c: nat, g: Gobblet)
    requires Consistent(l) && c < BoxMaxNum && g in l.reserve && CanPut(l.boxes[c], g)
    ensures PutLayout(l, c, g).boxes == l.boxes[c := l.boxes[c] + [g]]
    ensures PutLayout(l, c, g).reserve == l.reserve - {g}
    ensures PutLayout(l, c, g).shown == (l.shown - set p | p in l.boxes[c]) + {g}
    ensures Consistent(PutLayout(l, c, g))
  {
    var l' := PutLayout(l, c, g);
    var hidden := HideBox(l, c);
    assert Detach(hidden, g).boxes == l.boxes;
    assert l'.boxes == l.boxes[c := l.boxes[c] + [g]];
    forall d | 0 <= d < BoxMaxNum ensures Ascending(l'.boxes[d]) {
      if d == c {
        assert l'.boxes[d] == l.boxes[c] + [g];
        forall i, j | 0 <= i < j < |l'.boxes[d]| ensures l'.boxes[d][i].size < l'.boxes[d][j].size {
          if j < |l.boxes[c]| {
            assert l'.boxes[d][i] == l.boxes[c][i] && l'.boxes[d][j] == l.boxes[c][j];
          } else {
            assert l.boxes[c][i] in l.boxes[c];
          }
        }
      }
    }
    forall d, i | 0 <= d < BoxMaxNum && 0 <= i < |l'.boxes[d]|
      ensures l'.boxes[d][i] in l'.shown <==> i == |l'.boxes[d]| - 1
    {
      var x := l'.boxes[d][i];
      if d == c {
        if i < |l.boxes[c]| {
          assert x == l.boxes[c][i];
          Located(l, x, c);
        }
      } else {
        Located(l, x, d);
        assert x !in l.boxes[c];
        assert x != g;
      }
    }
  }

  /** A move that passed can_move_gobblet takes exactly the top (last) piece of box a and
      appends it to box b; the piece below it, if any, is displayed; the other boxes and
      the inventory are unchanged and the page stays consistent. */
  lemma MoveKeepsConsistent(l: Layout, a: nat, b: nat)
    requires Consistent(l) && a < BoxMaxNum && b < BoxMaxNum && CanMove(l.boxes, a, b)
    ensures a != b && l.boxes[a] != []
    ensures MoveLayout(l, a, b).boxes ==
      l.boxes[a := l.boxes[a][..|l.boxes[a]| - 1]][b := l.boxes[b] + [l.boxes[a][|l.boxes[a]| - 1]]]
    ensures MoveLayout(l, a, b).reserve == l.reserve
    ensures Consistent(MoveLayout(l, a, b))
  {
    var s := l.boxes[a];
    var n := |s| - 1;
    var top := s[n];
    TopOfAscending(s);
    var l' := MoveLayout(l, a, b);
    var hidden := HideBox(l, b);
    Located(l, top, a);
    assert GetBox(hidden, top) == Some(a);
    WithoutTop(s);
    var moved := AppendChild(hidden, b, top);
    assert moved.boxes == l.boxes[a := s[..n]][b := l.boxes[b] + [top]];
    assert l'.boxes == moved.boxes;
    assert l'.reserve == l.reserve;
    MoveStacked(l, a, b, l'.boxes);
    MoveShownSet(l, a, b);
    MoveShown(l, a, b, l'.boxes, l'.shown);
  }

  lemma MoveStacked(l: Layout, a: nat, b: nat, boxes': seq<seq<Gobblet>>)
    requires Consistent(l) && a < BoxMaxNum && b < BoxMaxNum && CanMove(l.boxes, a, b)
    requires l.boxes[a] != [] && a != b
    requires boxes' ==
      l.boxes[a := l.boxes[a][..|l.boxes[a]| - 1]][b := l.boxes[b] + [l.boxes[a][|l.boxes[a]| - 1]]]
    ensures forall d :: 0 <= d < |boxes'| ==> Ascending(boxes'[d])
  {
    var s := l.boxes[a];
    var top := s[|s| - 1];
    TopOfAscending(s);
    forall d | 0 <= d < |boxes'| ensures Ascending(boxes'[d]) {
      if d == b {
        var t := l.boxes[b];
        if t != [] {
          TopOfAscending(t);
        }
        forall i, j | 0 <= i < j < |boxes'[d]| ensures boxes'[d][i].size < boxes'[d][j].size {
          if j < |t| {
            assert boxes'[d][i] == t[i] && boxes'[d][j] == t[j];
          } else {
            assert boxes'[d][i] == t[i];
            assert t[i].size <= t[|t| - 1].size;
          }
        }
      } else if d == a {
        assert boxes'[d] == s[..|s| - 1];
      }
    }
  }

  /** The last child of a box as a set (empty for an empty box). */
  function LastAsSet(s: seq<Gobblet>): set<Gobblet>
  {
    if s == [] then {} else {s[|s| - 1]}
  }

  /** The first two steps of a legal move: box b is hidden, and its top piece taken from
      box a leaves the pieces below it there. */
  lemma MoveSteps(l: Layout, a: nat, b: nat)
    requires Consistent(l) && a < BoxMaxNum && b < BoxMaxNum && CanMove(l.boxes, a, b)
    requires l.boxes[a] != [] && a != b
    ensures TopOf(HideBox(l, b).boxes[a]) == Some(l.boxes[a][|l.boxes[a]| - 1])
    ensures AppendChild(HideBox(l, b), b, l.boxes[a][|l.boxes[a]| - 1]).boxes[a] ==
      l.boxes[a][..|l.boxes[a]| - 1]
    ensures AppendChild(HideBox(l, b), b, l.boxes[a][|l.boxes[a]| - 1]).shown ==
      l.shown - set p | p in l.boxes[b]
  {
    var s := l.boxes[a];
    var top := s[|s| - 1];
    TopOfAscending(s);
    Located(l, top, a);
    WithoutTop(s);
    var hidden := HideBox(l, b);
    assert GetBox(hidden, top) == Some(a);
    assert Detach(hidden, top).boxes[a] == Without(s, top);
  }

  /** After a legal move, the pieces of box b are hidden and the new top of box a (if
      any) is displayed; the moved piece keeps being displayed. */
  lemma MoveShownSet(l: Layout, a: nat, b: nat)
    requires Consistent(l) && a < BoxMaxNum && b < BoxMaxNum && CanMove(l.boxes, a, b)
    requires l.boxes[a] != [] && a != b
    ensures MoveLayout(l, a, b).shown ==
      (l.shown - set p | p in l.boxes[b]) + LastAsSet(l.boxes[a][..|l.boxes[a]| - 1])
  {
    var s := l.boxes[a];
    var n := |s| - 1;
    var rest := s[..n];
    MoveSteps(l, a, b);
    assert Ascending(s);
    AscendingPrefix(s, n);
    if rest != [] {
      TopOfAscending(rest);
    }
    MoveUncovers(l, a, b, s[n], rest);
  }

  /** What is left of an ascending box after pieces leave its end is ascending. */
  lemma AscendingPrefix(s: seq<Gobblet>, n: nat)
    requires Ascending(s) && n <= |s|
    ensures Ascending(s[..n])
  {
    forall i, j | 0 <= i < j < n ensures s[..n][i].size < s[..n][j].size {
      assert s[..n][i] == s[i] && s[..n][j] == s[j];
    }
  }

  /** Once the moved piece and what it leaves behind in box a are known, the display after
      move_gobblet adds the new top of box a, if any, to the display after appendChild. */
  lemma MoveUncovers(l: Layout, a: nat, b: nat, top: Gobblet, rest: seq<Gobblet>)
    requires WellFormed(l) && a < BoxMaxNum && b < BoxMaxNum
    requires TopOf(HideBox(l, b).boxes[a]) == Some(top)
    requires AppendChild(HideBox(l, b), b, top).boxes[a] == rest
    requires rest != [] ==> TopOf(rest) == Some(rest[|rest| - 1])
    ensures MoveLayout(l, a, b).shown == AppendChild(HideBox(l, b), b, top).shown + LastAsSet(rest)
  {
    var moved := AppendChild(HideBox(l, b), b, top);
    if rest != [] {
      assert MoveLayout(l, a, b) == Show(moved, rest[|rest| - 1]);
    } else {
      assert MoveLayout(l, a, b) == moved;
    }
  }

  lemma MoveShown(l: Layout, a: nat, b: nat, boxes': seq<seq<Gobblet>>, shown': set<Gobblet>)
    requires Consistent(l) && a < BoxMaxNum && b < BoxMaxNum && CanMove(l.boxes, a, b)
    requires l.boxes[a] != [] && a != b
    requires boxes' ==
      l.boxes[a := l.boxes[a][..|l.boxes[a]| - 1]][b := l.boxes[b] + [l.boxes[a][|l.boxes[a]| - 1]]]
    requires shown' == (l.shown - set p | p in l.boxes[b]) + LastAsSet(l.boxes[a][..|l.boxes[a]| - 1])
    ensures forall d, i :: 0 <= d < |boxes'| && 0 <= i < |boxes'[d]| ==>
      (boxes'[d][i] in shown' <==> i == |boxes'[d]| - 1)
  {
    forall d, i | 0 <= d < |boxes'| && 0 <= i < |boxes'[d]|
      ensures boxes'[d][i] in shown' <==> i == |boxes'[d]| - 1
    {
      if d == b {
        MoveShownTarget(l, a, b, boxes', shown', i);
      } else if d == a {
        MoveShownSource(l, a, b, boxes', shown', i);
      } else {
        var x := boxes'[d][i];
        assert x == l.boxes[d][i];
        Located(l, x, d);
        assert x !in l.boxes[b];
        assert x !in l.boxes[a];
      }
    }
  }

  lemma MoveShownTarget(l: Layout, a: nat, b: nat, boxes': seq<seq<Gobblet>>, shown': set<Gobblet>, i: nat)
    requires Consistent(l) && a < BoxMaxNum && b < BoxMaxNum && CanMove(l.boxes, a, b)
    requires l.boxes[a] != [] && a != b
    requires boxes' ==
      l.boxes[a := l.boxes[a][..|l.boxes[a]| - 1]][b := l.boxes[b] + [l.boxes[a][|l.boxes[a]| - 1]]]
    requires shown' == (l.shown - set p | p in l.boxes[b]) + LastAsSet(l.boxes[a][..|l.boxes[a]| - 1])
    requires i < |boxes'[b]|
    ensures boxes'[b][i] in shown' <==> i == |boxes'[b]| - 1
  {
    var s := l.boxes[a];
    var n := |s| - 1;
    var x := boxes'[b][i];
    Located(l, s[n], a);
    if i < |l.boxes[b]| {
      assert x == l.boxes[b][i];
      Located(l, x, b);
      assert x !in s;
    } else {
      assert x == s[n];
      assert x !in l.boxes[b];
      assert x in l.shown;
    }
  }

  lemma MoveShownSource(l: Layout, a: nat, b: nat, boxes': seq<seq<Gobblet>>, shown': set<Gobblet>, i: nat)
    requires Consistent(l) && a < BoxMaxNum && b < BoxMaxNum && CanMove(l.boxes, a, b)
    requires l.boxes[a] != [] && a != b
    requires boxes' ==
      l.boxes[a := l.boxes[a][..|l.boxes[a]| - 1]][b := l.boxes[b] + [l.boxes[a][|l.boxes[a]| - 1]]]
    requires shown' == (l.shown - set p | p in l.boxes[b]) + LastAsSet(l.boxes[a][..|l.boxes[a]| - 1])
    requires i < |boxes'[a]|
    ensures boxes'[a][i] in shown' <==> i == |boxes'[a]| - 1
  {
    var s := l.boxes[a];
    var n := |s| - 1;
    var x := boxes'[a][i];
    assert x == s[i];
    Located(l, x, a);
    assert x !in l.boxes[b];
    assert x !in l.shown;
    if i < n - 1 {
      assert s[i] != s[n - 1] by {
        assert s[i].size < s[n - 1].size;
      }
    }
  }

  /** Under the invariant, is_gobblet_top_on_box agrees with get_top_gobblet_on_box: a
      piece on the board is displayed exactly when it is the top of its box. */
  lemma ShownIffTop(l: Layout, g: Gobblet)
    requires Consistent(l) && GetBox(l, g).Some?
    ensures IsGobbletTopOnBox(l, g) <==> TopOf(l.boxes[GetBox(l, g).value]) == Some(g)
  {
    var a := GetBox(l, g).value;
    var s := l.boxes[a];
    TopOfAscending(s);
    var k :| 0 <= k < |s| && s[k] == g;
    if k < |s| - 1 {
      assert s[k].size < s[|s| - 1].size;
    }
  }

  /** The top piece of an occupied box is displayed. */
  lemma TopIsShown(l: Layout, c: nat)
    requires Consistent(l) && c < BoxMaxNum && l.boxes[c] != []
    ensures TopOf(l.boxes[c]) == Some(l.boxes[c][|l.boxes[c]| - 1])
    ensures IsGobbletTopOnBox(l, l.boxes[c][|l.boxes[c]| - 1])
    ensures GetBox(l, l.boxes[c][|l.boxes[c]| - 1]) == Some(c)
  {
    var t := l.boxes[c][|l.boxes[c]| - 1];
    TopOfAscending(l.boxes[c]);
    Located(l, t, c);
    ShownIffTop(l, t);
  }

  /** The tests random_select applies before acting with white piece r on box r2: an
      inventory piece must be puttable there, a board piece must be displayed (the top of
      its box) and movable there. */
  predicate EnemyCanAct(l: Layout, r: GobbletId, r2: nat): (ok: bool)
    requires WellFormed(l) && r2 < BoxMaxNum
    ensures ok && Gobblet(Enemy, r) in l.reserve ==>
      TopOf(l.boxes[r2]).None? || TopOf(l.boxes[r2]).value.size < Gobblet(Enemy, r).size
    ensures ok && Gobblet(Enemy, r) !in l.reserve ==>
      Gobblet(Enemy, r) in l.shown && GetBox(l, Gobblet(Enemy, r)).value != r2
  {
    var g := Gobblet(Enemy, r);
    if IsInInventory(l, g) then CanPut(l.boxes[r2], g)
    else IsGobbletTopOnBox(l, g) && CanMove(l.boxes, GetBox(l, g).value, r2)
  }

  /** What random_select does once piece r and box r2 have passed the tests. */
  function EnemyAct(l: Layout, r: GobbletId, r2: nat): (r': Layout)
    requires WellFormed(l) && r2 < BoxMaxNum
    ensures WellFormed(r')
  {
    var g := Gobblet(Enemy, r);
    if IsInInventory(l, g) then PutLayout(l, r2, g)
    else MoveLayout(l, GetBox(l, g).value, r2)
  }

  /** Every enemy action random_select can take keeps the page consistent. */
  lemma EnemyActKeepsConsistent(l: Layout, r: GobbletId, r2: nat)
    requires Consistent(l) && r2 < BoxMaxNum && EnemyCanAct(l, r, r2)
    ensures Consistent(EnemyAct(l, r, r2))
  {
    var g := Gobblet(Enemy, r);
    if IsInInventory(l, g) {
      PutKeepsConsistent(l, r2, g);
    } else {
      MoveKeepsConsistent(l, GetBox(l, g).value, r2);
    }
  }

  /** Four numbers cannot cover 0..4. */
  lemma MissedByFour(x0: int, x1: int, x2: int, x3: int) returns (c: nat)
    ensures c < 5 && c != x0 && c != x1 && c != x2 && c != x3
  {
    if 0 != x0 && 0 != x1 && 0 != x2 && 0 != x3 { c := 0; }
    else if 1 != x0 && 1 != x1 && 1 != x2 && 1 != x3 { c := 1; }
    else if 2 != x0 && 2 != x1 && 2 != x2 && 2 != x3 { c := 2; }
    else if 3 != x0 && 3 != x1 && 3 != x2 && 3 != x3 { c := 3; }
    else { c := 4; }
  }

  function BoxIndexOr9(l: Layout, g: Gobblet): int
    requires WellFormed(l)
  {
    match GetBox(l, g)
    case None => 9
    case Some(i) => i
  }

  /** Only four pieces have size 2, so some box holds none of them. */
  lemma BoxWithoutLargest(l: Layout) returns (c: nat)
    requires WellFormed(l)
    ensures c < BoxMaxNum && forall p :: p in l.boxes[c] ==> p.size < 2
  {
    var p0, p1, p2, p3 := Gobblet(Player, 4), Gobblet(Player, 5), Gobblet(Enemy, 4), Gobblet(Enemy, 5);
    c := MissedByFour(BoxIndexOr9(l, p0), BoxIndexOr9(l, p1), BoxIndexOr9(l, p2), BoxIndexOr9(l, p3));
    forall p | p in l.boxes[c] ensures p.size < 2 {
      assert p.size >= 2 ==> p == p0 || p == p1 || p == p2 || p == p3 by {
        match p.owner
        case Player =>
        case Enemy =>
      }
      assert GetBox(l, p) == Some(c);
    }
  }

  /** A (piece, box) pair that passes random_select's tests always exists on a
      consistent page: the enemy's size-2 piece numbered 4 can always be put (from the
      inventory) or moved (from the board) somewhere. */
  lemma EnemyHasAction(l: Layout)
    requires Consistent(l)
    ensures exists r: GobbletId, r2 :: 0 <= r2 < BoxMaxNum && EnemyCanAct(l, r, r2)
  {
    var g := Gobblet(Enemy, 4);
    var c := BoxWithoutLargest(l);
    if IsInInventory(l, g) {
      assert EnemyCanAct(l, 4, c);
    } else {
      var a := GetBox(l, g).value;
      var s := l.boxes[a];
      var k :| 0 <= k < |s| && s[k] == g;
      var last := s[|s| - 1];
      assert last.size <= 2;
      TopOfAscending(s);
      TopOfIsChild(l.boxes[c]);
      assert EnemyCanAct(l, 4, c);
    }
  }
}
