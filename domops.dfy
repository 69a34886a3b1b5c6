/** The board-level queries and mutations of www/src/ts/domops.ts, over an abstract
    page: nine box divs whose children are pieces, the inventory rows, and each piece's
    display flag. */
module DomOps {
  import opened Wrappers
  import opened Pieces

  /** BOX_MAX_NUM: the 3x3 board, box number = row * 3 + column. */
  const BoxMaxNum: nat := 9

  /** A snapshot of the page: the pieces in each box in document (append) order, the
      pieces sitting in an inventory row, and the pieces whose display is "block". */
  datatype Layout = Layout(boxes: seq<seq<Gobblet>>, reserve: set<Gobblet>, shown: set<Gobblet>)

  /** The twelve pieces of a game: six per side, two of each size. */
  function AllGobblets(): set<Gobblet>
  {
    {Gobblet(Player, 0), Gobblet(Player, 1), Gobblet(Player, 2),
     Gobblet(Player, 3), Gobblet(Player, 4), Gobblet(Player, 5),
     Gobblet(Enemy, 0), Gobblet(Enemy, 1), Gobblet(Enemy, 2),
     Gobblet(Enemy, 3), Gobblet(Enemy, 4), Gobblet(Enemy, 5)}
  }

  lemma EveryGobbletIsKnown(g: Gobblet)
    ensures g in AllGobblets()
  {
    var i := g.id;
    match g.owner
    case Player =>
      if i == 0 { assert g == Gobblet(Player, 0); }
      else if i == 1 { assert g == Gobblet(Player, 1); }
      else if i == 2 { assert g == Gobblet(Player, 2); }
      else if i == 3 { assert g == Gobblet(Player, 3); }
      else if i == 4 { assert g == Gobblet(Player, 4); }
      else { assert g == Gobblet(Player, 5); }
    case Enemy =>
      if i == 0 { assert g == Gobblet(Enemy, 0); }
      else if i == 1 { assert g == Gobblet(Enemy, 1); }
      else if i == 2 { assert g == Gobblet(Enemy, 2); }
      else if i == 3 { assert g == Gobblet(Enemy, 3); }
      else if i == 4 { assert g == Gobblet(Enemy, 4); }
      else { assert g == Gobblet(Enemy, 5); }
  }

  lemma MultisetCancel(a: multiset<Gobblet>, b: multiset<Gobblet>, c: multiset<Gobblet>)
    requires a + c == b + c
    ensures a == b
  {
    forall x ensures a[x] == b[x] {
      assert (a + c)[x] == (b + c)[x];
    }
  }

  /** The pieces on the board, with multiplicity. */
  function Placed(boxes: seq<seq<Gobblet>>): multiset<Gobblet>
  {
    if boxes == [] then multiset{}
    else Placed(boxes[..|boxes| - 1]) + multiset(boxes[|boxes| - 1])
  }

  /** How many times a piece occurs on the page (in a box or in an inventory row). */
  function Occurrences(l: Layout, g: Gobblet): nat
  {
    Placed(l.boxes)[g] + if g in l.reserve then 1 else 0
  }

  /** A page in the shape the DOM guarantees: nine boxes, and every piece has exactly one
      parent, a box or an inventory row. */
  ghost predicate WellFormed(l: Layout)
  {
    |l.boxes| == BoxMaxNum && forall g: Gobblet :: Occurrences(l, g) == 1
  }

  /** Well-formedness depends on the parents of the pieces only, not on their display. */
  lemma SameParents(l: Layout, l': Layout)
    requires l'.boxes == l.boxes && l'.reserve == l.reserve
    ensures WellFormed(l) ==> WellFormed(l')
  {
    if WellFormed(l) {
      forall g: Gobblet ensures Occurrences(l', g) == 1 {
        assert Occurrences(l, g) == 1;
      }
    }
  }

  /** The page after the inventory is initialised: every piece in its inventory row and
      displayed, every box empty. */
  function Initial(): (l: Layout)
    ensures WellFormed(l)
    ensures forall i :: 0 <= i < |l.boxes| ==> l.boxes[i] == []
    ensures forall g: Gobblet :: g in l.reserve && g in l.shown
  {
    var l := Layout([[], [], [], [], [], [], [], [], []], AllGobblets(), AllGobblets());
    InitialWellFormed(l);
    assert forall g: Gobblet :: g in AllGobblets() by {
      forall g: Gobblet ensures g in AllGobblets() {
        EveryGobbletIsKnown(g);
      }
    }
    l
  }

  lemma {:induction false} PlacedEmpty(boxes: seq<seq<Gobblet>>)
    requires forall i :: 0 <= i < |boxes| ==> boxes[i] == []
    ensures Placed(boxes) == multiset{}
  {
    if boxes != [] {
      PlacedEmpty(boxes[..|boxes| - 1]);
    }
  }

  /** Empty boxes and every piece in the inventory: each piece is in exactly one place. */
  lemma InitialWellFormed(l: Layout)
    requires |l.boxes| == BoxMaxNum && forall i :: 0 <= i < |l.boxes| ==> l.boxes[i] == []
    requires l.reserve == AllGobblets()
    ensures WellFormed(l)
  {
    PlacedEmpty(l.boxes);
    forall g: Gobblet ensures Occurrences(l, g) == 1 {
      EveryGobbletIsKnown(g);
    }
  }

  /** Each box's pieces are counted in Placed. */
  lemma {:induction false} PlacedHasBox(boxes: seq<seq<Gobblet>>, i: nat)
    requires i < |boxes|
    ensures multiset(boxes[i]) <= Placed(boxes)
  {
    var n := |boxes| - 1;
    if i < n {
      PlacedHasBox(boxes[..n], i);
    }
  }

  /** Two different boxes are counted separately in Placed. */
  lemma {:induction false} PlacedHasTwoBoxes(boxes: seq<seq<Gobblet>>, i: nat, j: nat)
    requires i < j < |boxes|
    ensures multiset(boxes[i]) + multiset(boxes[j]) <= Placed(boxes)
  {
    var n := |boxes| - 1;
    if j < n {
      PlacedHasTwoBoxes(boxes[..n], i, j);
    } else {
      PlacedHasBox(boxes[..n], i);
    }
  }

  /** A piece found in no box is not counted in Placed. */
  lemma {:induction false} PlacedAbsent(boxes: seq<seq<Gobblet>>, g: Gobblet)
    requires forall i :: 0 <= i < |boxes| ==> g !in boxes[i]
    ensures Placed(boxes)[g] == 0
  {
    if boxes != [] {
      PlacedAbsent(boxes[..|boxes| - 1], g);
    }
  }

  /** Replacing one box changes Placed by exactly that box's difference. */
  lemma {:induction false} PlacedUpdate(boxes: seq<seq<Gobblet>>, i: nat, s: seq<Gobblet>)
    requires i < |boxes|
    ensures Placed(boxes[i := s]) + multiset(boxes[i]) == Placed(boxes) + multiset(s)
  {
    var n := |boxes| - 1;
    var boxes' := boxes[i := s];
    if i < n {
      assert boxes'[..n] == boxes[..n][i := s];
      PlacedUpdate(boxes[..n], i, s);
      assert boxes'[n] == boxes[n];
      calc {
        Placed(boxes') + multiset(boxes[i]);
        Placed(boxes'[..n]) + multiset(boxes[n]) + multiset(boxes[i]);
        (Placed(boxes'[..n]) + multiset(boxes[i])) + multiset(boxes[n]);
        Placed(boxes[..n]) + multiset(s) + multiset(boxes[n]);
        Placed(boxes) + multiset(s);
      }
    } else {
      assert boxes'[..n] == boxes[..n];
    }
  }

  /** The box index at or after `from` whose children include g, scanning upwards. */
  function FindBox(boxes: seq<seq<Gobblet>>, g: Gobblet, from: nat): (r: Option<nat>)
    requires from <= |boxes|
    decreases |boxes| - from
    ensures r.Some? ==> from <= r.value < |boxes| && g in boxes[r.value]
    ensures r.None? <==> forall i :: from <= i < |boxes| ==> g !in boxes[i]
  {
    if from == |boxes| then None
    else if g in boxes[from] then Some(from)
    else FindBox(boxes, g, from + 1)
  }

  /** get_box: the box that is the piece's parent, or None when the parent is not a box. */
  function GetBox(l: Layout, g: Gobblet): (r: Option<nat>)
    requires WellFormed(l)
    ensures r.Some? ==> r.value < BoxMaxNum && g in l.boxes[r.value] && g !in l.reserve
    ensures r.Some? ==> forall i :: 0 <= i < BoxMaxNum && g in l.boxes[i] ==> i == r.value
    ensures r.None? <==> g in l.reserve
    ensures r.None? ==> forall i :: 0 <= i < BoxMaxNum ==> g !in l.boxes[i]
  {
    var r := FindBox(l.boxes, g, 0);
    assert Occurrences(l, g) == 1;
    if r.Some? then
      Located(l, g, r.value);
      r
    else
      PlacedAbsent(l.boxes, g);
      r
  }

  /** A piece in a box has no other parent: it is in no other box, not in the
      inventory, and occurs once in its box. */
  lemma Located(l: Layout, g: Gobblet, i: nat)
    requires WellFormed(l) && i < BoxMaxNum && g in l.boxes[i]
    ensures g !in l.reserve
    ensures multiset(l.boxes[i])[g] == 1
    ensures forall j :: 0 <= j < BoxMaxNum && g in l.boxes[j] ==> j == i
  {
    assert Occurrences(l, g) == 1;
    PlacedHasBox(l.boxes, i);
    forall j | 0 <= j < BoxMaxNum && g in l.boxes[j] ensures j == i {
      if j < i {
        PlacedHasTwoBoxes(l.boxes, j, i);
      } else if i < j {
        PlacedHasTwoBoxes(l.boxes, i, j);
      }
    }
  }

  /** is_in_inventory: the piece's parent is an inventory row. On a well-formed page
      this is exactly "not on a box". */
  function IsInInventory(l: Layout, g: Gobblet): (r: bool)
    requires WellFormed(l)
    ensures r <==> forall i :: 0 <= i < BoxMaxNum ==> g !in l.boxes[i]
  {
    assert Occurrences(l, g) == 1;
    assert g in l.reserve ==> forall i :: 0 <= i < BoxMaxNum ==> g !in l.boxes[i] by {
      if g in l.reserve {
        forall i | 0 <= i < BoxMaxNum ensures g !in l.boxes[i] {
          PlacedHasBox(l.boxes, i);
          assert multiset(l.boxes[i])[g] == 0;
        }
      }
    }
    assert (forall i :: 0 <= i < BoxMaxNum ==> g !in l.boxes[i]) ==> g in l.reserve by {
      if forall i :: 0 <= i < BoxMaxNum ==> g !in l.boxes[i] {
        PlacedAbsent(l.boxes, g);
      }
    }
    g in l.reserve
  }

  /** get_top_gobblet_on_box as a function: scanning the children in order, a piece
      replaces the current answer when its size is strictly larger. */
  function TopOf(s: seq<Gobblet>): (r: Option<Gobblet>)
    ensures r.None? <==> s == []
  {
    if s == [] then None
    else
      var t := TopOf(s[..|s| - 1]);
      var x := s[|s| - 1];
      if t.None? || x.size > t.value.size then Some(x) else t
  }

  /** s[k] is a child of maximal size, and the first one of that size. */
  predicate FirstLargest(s: seq<Gobblet>, k: nat)
  {
    k < |s| &&
    (forall j :: 0 <= j < |s| ==> s[j].size <= s[k].size) &&
    (forall j :: 0 <= j < k ==> s[j].size < s[k].size)
  }

  /** The answer of get_top_gobblet_on_box is None exactly for an empty box, otherwise
      a child of maximal size, the first such child. */
  lemma {:induction false} TopOfIsFirstLargest(s: seq<Gobblet>)
    ensures TopOf(s).None? <==> s == []
    ensures TopOf(s).Some? ==> exists k: nat :: FirstLargest(s, k) && s[k] == TopOf(s).value
  {
    if s != [] {
      var p := s[..|s| - 1];
      var x := s[|s| - 1];
      TopOfIsFirstLargest(p);
      assert forall j :: 0 <= j < |p| ==> s[j] == p[j];
      if TopOf(p).Some? {
        var k: nat :| FirstLargest(p, k) && p[k] == TopOf(p).value;
        if x.size > p[k].size {
          assert FirstLargest(s, |s| - 1);
        } else {
          assert FirstLargest(s, k);
        }
      } else {
        assert FirstLargest(s, 0);
      }
    }
  }

  /** The top of a box is one of its children. */
  lemma {:induction false} TopOfIsChild(s: seq<Gobblet>)
    ensures TopOf(s).Some? ==> TopOf(s).value in s
  {
    if s != [] {
      TopOfIsChild(s[..|s| - 1]);
    }
  }

  /** is_top_gobblet_player: the box has a top piece and it carries the player class. */
  function IsTopGobbletPlayer(l: Layout, c: nat): (r: bool)
    requires c < |l.boxes|
    ensures r <==> TopOf(l.boxes[c]).Some? && TopOf(l.boxes[c]).value.owner == Player
  {
    match TopOf(l.boxes[c])
    case None => false
    case Some(t) =>
      PlayerClassOfClassList(t);
      HasPlayerClass(ClassList(t), 0)
  }

  /** is_gobblet_top_on_box: the piece's parent is a box and the piece is displayed. */
  function IsGobbletTopOnBox(l: Layout, g: Gobblet): (r: bool)
    requires WellFormed(l)
    ensures r ==> g !in l.reserve && g in l.shown
    ensures r <==> (exists i :: 0 <= i < BoxMaxNum && g in l.boxes[i]) && g in l.shown
  {
    GetBox(l, g).Some? && g in l.shown
  }

  /** all_gobblet_display_none_on_box as a value: every child of box c is hidden. */
  function HideBox(l: Layout, c: nat): (r: Layout)
    requires c < |l.boxes|
    ensures r.boxes == l.boxes && r.reserve == l.reserve
    ensures WellFormed(l) ==> WellFormed(r)
  {
    var r := l.(shown := l.shown - set g | g in l.boxes[c]);
    SameParents(l, r);
    r
  }

  /** The sequence with every occurrence of g removed, order kept. */
  function Without(s: seq<Gobblet>, g: Gobblet): (r: seq<Gobblet>)
    ensures multiset(r) == multiset(s)[g := 0]
    ensures forall x :: x in r <==> x in s && x != g
  {
    if s == [] then []
    else
      var p := s[..|s| - 1];
      assert s == p + [s[|s| - 1]];
      Without(p, g) + if s[|s| - 1] == g then [] else [s[|s| - 1]]
  }

  /** g leaves its parent: an inventory row, or the box that holds it. */
  function Detach(l: Layout, g: Gobblet): (r: Layout)
    requires WellFormed(l)
    ensures |r.boxes| == BoxMaxNum && r.shown == l.shown
    ensures g !in r.reserve && forall i :: 0 <= i < BoxMaxNum ==> g !in r.boxes[i]
    ensures Placed(r.boxes) == Placed(l.boxes)[g := 0]
    ensures r.reserve == l.reserve - {g}
    ensures g in l.reserve ==> r.boxes == l.boxes
    ensures GetBox(l, g).Some? ==>
      r.boxes == l.boxes[GetBox(l, g).value := Without(l.boxes[GetBox(l, g).value], g)]
  {
    var parent := GetBox(l, g);
    if parent.None? then
      PlacedAbsent(l.boxes, g);
      l.(reserve := l.reserve - {g})
    else
      var a := parent.value;
      RemovedFromBox(l, g, a, l.boxes[a := Without(l.boxes[a], g)]);
      l.(boxes := l.boxes[a := Without(l.boxes[a], g)])
  }

  lemma RemovedFromBox(l: Layout, g: Gobblet, a: nat, boxes': seq<seq<Gobblet>>)
    requires WellFormed(l) && a < BoxMaxNum && g in l.boxes[a]
    requires boxes' == l.boxes[a := Without(l.boxes[a], g)]
    ensures g !in l.reserve
    ensures forall i :: 0 <= i < BoxMaxNum ==> g !in boxes'[i]
    ensures Placed(boxes') == Placed(l.boxes)[g := 0]
  {
    Located(l, g, a);
    assert Occurrences(l, g) == 1;
    var p, p' := Placed(l.boxes), Placed(boxes');
    var m, w := multiset(l.boxes[a]), multiset(Without(l.boxes[a], g));
    PlacedUpdate(l.boxes, a, Without(l.boxes[a], g));
    assert p' + m == p + w;
    assert p[g] == 1 && m[g] == 1 && w[g] == 0;
    forall x ensures p'[x] == p[g := 0][x] {
      assert (p' + m)[x] == (p + w)[x];
    }
  }

  /** g becomes the last child of box c. */
  function Attach(l: Layout, c: nat, g: Gobblet): Layout
    requires c < |l.boxes|
  {
    l.(boxes := l.boxes[c := l.boxes[c] + [g]])
  }

  lemma AttachDetachedWellFormed(l: Layout, c: nat, g: Gobblet)
    requires WellFormed(l) && c < BoxMaxNum
    ensures WellFormed(Attach(Detach(l, g), c, g))
  {
    var detached := Detach(l, g);
    var l' := Attach(detached, c, g);
    PlacedUpdate(detached.boxes, c, detached.boxes[c] + [g]);
    assert multiset(detached.boxes[c] + [g]) == multiset(detached.boxes[c]) + multiset{g};
    MultisetCancel(Placed(l'.boxes), Placed(detached.boxes) + multiset{g}, multiset(detached.boxes[c]));
    forall x: Gobblet ensures Occurrences(l', x) == 1 {
      assert Occurrences(l, x) == 1;
    }
  }

  /** appendChild(g) on box c: g leaves its current parent (an inventory row or a box)
      and becomes the last child of box c; every piece still has exactly one parent. */
  function AppendChild(l: Layout, c: nat, g: Gobblet): (r: Layout)
    requires WellFormed(l) && c < BoxMaxNum
    ensures WellFormed(r) && r.shown == l.shown
    ensures r.boxes[c] == Detach(l, g).boxes[c] + [g]
    ensures g !in r.reserve
  {
    AttachDetachedWellFormed(l, c, g);
    Attach(Detach(l, g), c, g)
  }

  /** style.display = "block" on piece g. */
  function Show(l: Layout, g: Gobblet): (r: Layout)
    ensures r.boxes == l.boxes && r.reserve == l.reserve
    ensures WellFormed(l) ==> WellFormed(r)
  {
    var r := l.(shown := l.shown + {g});
    SameParents(l, r);
    r
  }

  /** Hiding box c hides exactly its children: every other piece keeps its display. */
  lemma HideBoxHidesOnlyThatBox(l: Layout, c: nat)
    requires c < |l.boxes|
    ensures forall x :: x in l.boxes[c] ==> x !in HideBox(l, c).shown
    ensures forall x :: x !in l.boxes[c] ==> (x in HideBox(l, c).shown <==> x in l.shown)
  {
  }

  /** Displaying g changes the display of g alone. */
  lemma ShowOnlyThatPiece(l: Layout, g: Gobblet)
    ensures g in Show(l, g).shown
    ensures forall x :: x != g ==> (x in Show(l, g).shown <==> x in l.shown)
  {
  }

  /** The page itself. Its fields are the DOM state the game reads and writes in place. */
  class Board {
    var boxes: seq<seq<Gobblet>>
    var reserve: set<Gobblet>
    var shown: set<Gobblet>

    function Snapshot(): Layout
      reads this
    {
      Layout(boxes, reserve, shown)
    }

    ghost predicate Valid()
      reads this
    {
      WellFormed(Snapshot())
    }

    /** The page after the inventory is initialised (www/src/index.ts). */
    constructor ()
      ensures Snapshot() == Initial() && Valid()
    {
      boxes := Initial().boxes;
      reserve := AllGobblets();
      shown := AllGobblets();
    }

    /** get_top_gobblet_on_box: keeps the first child whose size exceeds every earlier
        one. */
    method GetTopGobbletOnBox(c: nat) returns (resImg: Option<Gobblet>)
      requires c < |boxes|
      ensures resImg == TopOf(boxes[c])
      ensures resImg.None? <==> boxes[c] == []
      ensures resImg.Some? ==> resImg.value in boxes[c]
      ensures resImg.Some? ==> forall p :: p in boxes[c] ==> p.size <= resImg.value.size
    {
      var gobblets := boxes[c];
      var maxSize := -1;
      resImg := None;
      var i := 0;
      while i < |gobblets|
        invariant 0 <= i <= |gobblets|
        invariant resImg == TopOf(gobblets[..i])
        invariant maxSize == if resImg.None? then -1 else resImg.value.size
      {
        assert gobblets[..i + 1][..i] == gobblets[..i];
        var img := gobblets[i];
        var imgSize := GetGobbletSize(ClassList(img));
        SizeOfClassList(img);
        if imgSize > maxSize {
          maxSize := imgSize;
          resImg := Some(img);
        }
        i := i + 1;
      }
      assert gobblets[..i] == gobblets;
      TopOfIsFirstLargest(gobblets);
      if resImg.Some? {
        var k: nat :| FirstLargest(gobblets, k) && gobblets[k] == resImg.value;
        forall p | p in gobblets ensures p.size <= resImg.value.size {
          var j :| 0 <= j < |gobblets| && gobblets[j] == p;
        }
      }
    }

    /** all_gobblet_display_none_on_box: hides every child of box c, one by one. */
    method AllGobbletDisplayNoneOnBox(c: nat)
      requires c < |boxes|
      modifies this
      ensures Snapshot() == HideBox(old(Snapshot()), c)
    {
      var gobblets := boxes[c];
      var i := 0;
      while i < |gobblets|
        invariant 0 <= i <= |gobblets|
        invariant boxes == old(boxes) && reserve == old(reserve)
        invariant shown == old(shown) - set g | g in gobblets[..i]
      {
        assert gobblets[..i + 1] == gobblets[..i] + [gobblets[i]];
        shown := shown - {gobblets[i]};
        i := i + 1;
      }
      assert gobblets[..i] == gobblets;
    }

    /** box.appendChild(g): moves g from its parent to the end of box c. */
    method AppendChildTo(c: nat, g: Gobblet)
      requires Valid() && c < BoxMaxNum
      modifies this
      ensures Valid()
      ensures Snapshot() == AppendChild(old(Snapshot()), c, g)
    {
      var parent := GetBox(Snapshot(), g);
      if parent.None? {
        reserve := reserve - {g};
      } else {
        var a := parent.value;
        boxes := boxes[a := Without(boxes[a], g)];
      }
      boxes := boxes[c := boxes[c] + [g]];
      assert Snapshot() == AppendChild(old(Snapshot()), c, g);
    }

    /** g.style.display = "block". */
    method SetDisplayBlock(g: Gobblet)
      modifies this
      ensures Snapshot() == Show(old(Snapshot()), g)
    {
      shown := shown + {g};
    }
  }
}
