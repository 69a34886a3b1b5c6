/** Pieces ("gobblets") and the queries of www/src/ts/domops.ts that look at a single
    piece: its size and its owner, both read from the piece's CSS class list. */
module Pieces {
  import opened Wrappers

  /** The two sides. The player's pieces are the black ones of the left inventory, the
      enemy's the white ones of the right inventory. */
  datatype Owner = Player | Enemy

  /** Each side numbers its six pieces 0..5 (GOBBLET_MAX_NUM). */
  type GobbletId = i: int | 0 <= i < 6

  /** A piece. The inventory set-up puts pieces 2s and 2s+1 in the row of size s, so the
      size (0 = smallest, 2 = largest) is determined by the number. */
  datatype Gobblet = Gobblet(owner: Owner, id: GobbletId) {
    const size: nat := id / 2
  }

  /** The class tokens the code looks for: "gobblet", "gobblet-size<n>",
      "player-gobblet", "enemy-gobblet"; every other class is OtherClass. */
  datatype CssClass =
    | GobbletClass
    | SizeClass(n: nat)
    | PlayerGobbletClass
    | EnemyGobbletClass
    | OtherClass

  /** The class list of a piece's image element. */
  function ClassList(g: Gobblet): seq<CssClass>
  {
    [GobbletClass, SizeClass(g.size), if g.owner == Player then PlayerGobbletClass else EnemyGobbletClass]
  }

  /** The value of the last "gobblet-size" class, or -1 when there is none. */
  function GobbletSize(cs: seq<CssClass>): (n: int)
    ensures n >= -1
    ensures n == -1 <==> forall i :: 0 <= i < |cs| ==> !cs[i].SizeClass?
    ensures n >= 0 ==>
      exists i :: 0 <= i < |cs| && cs[i] == SizeClass(n) &&
        forall j :: i < j < |cs| ==> !cs[j].SizeClass?
  {
    if cs == [] then -1
    else if cs[|cs| - 1].SizeClass? then cs[|cs| - 1].n
    else
      var front := cs[..|cs| - 1];
      assert forall i :: 0 <= i < |front| ==> front[i] == cs[i];
      GobbletSize(front)
  }

  /** get_gobblet_size: walks the whole class list; a later size class overrides an
      earlier one. */
  method GetGobbletSize(cs: seq<CssClass>) returns (gobsize: int)
    ensures gobsize == GobbletSize(cs)
    ensures gobsize == -1 <==> forall i :: 0 <= i < |cs| ==> !cs[i].SizeClass?
    ensures gobsize >= 0 ==>
      exists i :: 0 <= i < |cs| && cs[i] == SizeClass(gobsize) &&
        forall j :: i < j < |cs| ==> !cs[j].SizeClass?
  {
    gobsize := -1;
    var i := 0;
    while i < |cs|
      invariant 0 <= i <= |cs|
      invariant gobsize == GobbletSize(cs[..i])
    {
      assert cs[..i + 1][..i] == cs[..i];
      if cs[i].SizeClass? {
        gobsize := cs[i].n;
      }
      i := i + 1;
    }
    assert cs[..i] == cs;
  }

  lemma SizeOfClassList(g: Gobblet)
    ensures GobbletSize(ClassList(g)) == g.size
  {
    assert ClassList(g)[..2][..1] == [GobbletClass];
  }

  predicate IsOwnerClass(c: CssClass)
  {
    c == PlayerGobbletClass || c == EnemyGobbletClass
  }

  /** The early-returning scan of which_gobblet from position i on: 1 at the first
      "player-gobblet", -1 at the first "enemy-gobblet", 0 if neither occurs. */
  function OwnerScan(cs: seq<CssClass>, i: nat): (v: int)
    requires i <= |cs|
    decreases |cs| - i
    ensures -1 <= v <= 1
    ensures v == 0 <==> forall j :: i <= j < |cs| ==> !IsOwnerClass(cs[j])
    ensures v != 0 ==>
      exists k :: i <= k < |cs| &&
        cs[k] == (if v == 1 then PlayerGobbletClass else EnemyGobbletClass) &&
        forall j :: i <= j < k ==> !IsOwnerClass(cs[j])
  {
    if i == |cs| then 0
    else if cs[i] == PlayerGobbletClass then 1
    else if cs[i] == EnemyGobbletClass then -1
    else OwnerScan(cs, i + 1)
  }

  /** which_gobblet: 0 for no element, otherwise what the class scan finds. */
  function WhichGobblet(gob: Option<seq<CssClass>>): (v: int)
    ensures gob.None? ==> v == 0
    ensures gob.Some? ==>
      (v == 0 <==> forall j :: 0 <= j < |gob.value| ==> !IsOwnerClass(gob.value[j]))
    ensures gob.Some? && v == 1 ==>
      exists k :: 0 <= k < |gob.value| && gob.value[k] == PlayerGobbletClass &&
        forall j :: 0 <= j < k ==> !IsOwnerClass(gob.value[j])
    ensures gob.Some? && v == -1 ==>
      exists k :: 0 <= k < |gob.value| && gob.value[k] == EnemyGobbletClass &&
        forall j :: 0 <= j < k ==> !IsOwnerClass(gob.value[j])
  {
    match gob
    case None => 0
    case Some(cs) => OwnerScan(cs, 0)
  }

  function ClassesOf(t: Option<Gobblet>): Option<seq<CssClass>>
  {
    match t
    case None => None
    case Some(g) => Some(ClassList(g))
  }

  /** The owner code of an optional piece as which_gobblet computes it: 0 for no piece,
      1 for the player's, -1 for the enemy's. */
  function OwnerCode(t: Option<Gobblet>): (v: int)
    ensures t.None? <==> v == 0
    ensures t.Some? ==> (v == 1 <==> t.value.owner == Player)
    ensures t.Some? ==> (v == -1 <==> t.value.owner == Enemy)
  {
    if t.Some? then
      var cs := ClassList(t.value);
      assert IsOwnerClass(cs[2]);
      assert OwnerScan(cs, 2) == OwnerScan(cs, 0);
      WhichGobblet(ClassesOf(t))
    else
      WhichGobblet(ClassesOf(t))
  }

  /** The early-returning scan of is_top_gobblet_player over a class list. */
  function HasPlayerClass(cs: seq<CssClass>, i: nat): (r: bool)
    requires i <= |cs|
    decreases |cs| - i
    ensures r <==> exists j :: i <= j < |cs| && cs[j] == PlayerGobbletClass
  {
    if i == |cs| then false
    else if cs[i] == PlayerGobbletClass then true
    else HasPlayerClass(cs, i + 1)
  }

  lemma PlayerClassOfClassList(g: Gobblet)
    ensures HasPlayerClass(ClassList(g), 0) <==> g.owner == Player
  {
    var cs := ClassList(g);
    if g.owner == Player {
      assert cs[2] == PlayerGobbletClass;
    }
  }
}
