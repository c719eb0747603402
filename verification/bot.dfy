/** The target-selection policy (bot.py, class Bot). */
module Bot {
  import opened Results
  import opened Grid
  import opened Search
  import opened World

  /** The player's own cell, read from the x and y of its position. */
  function Here(me: Hero): Pos {
    Pos(me.x, me.y)
  }

  /** `customer_difficulty`: how many items a customer still orders. */
  function Difficulty(c: Customer): int {
    c.frenchFries + c.burger
  }

  /** `easiest_customer`: the head of the customers sorted by difficulty. The sort is
      stable, so this is the first customer of least difficulty; the result is its index.
      An empty customer list makes the source raise. */
  function Easiest(cs: seq<Customer>): (i: nat)
    requires |cs| > 0
    ensures i < |cs|
    ensures forall j :: 0 <= j < |cs| ==> Difficulty(cs[i]) <= Difficulty(cs[j])
    ensures forall j :: 0 <= j < i ==> Difficulty(cs[i]) < Difficulty(cs[j])
    decreases |cs|
  {
    if |cs| == 1 then 0
    else
      var k := Easiest(cs[1..]) + 1;
      if Difficulty(cs[0]) <= Difficulty(cs[k]) then 0 else k
  }

  /** Least difficulty, earliest on ties, pins down one customer: any index with both
      properties is the one `Easiest` picks. */
  lemma EasiestUnique(cs: seq<Customer>, i: nat)
    requires i < |cs|
    requires forall j :: 0 <= j < |cs| ==> Difficulty(cs[i]) <= Difficulty(cs[j])
    requires forall j :: 0 <= j < i ==> Difficulty(cs[i]) < Difficulty(cs[j])
    ensures i == Easiest(cs)
  {
    var e := Easiest(cs);
    if i != e {
      assert false;
    }
  }

  /** `sufficient_resources_for`: the hero carries what the customer orders. */
  predicate Sufficient(me: Hero, c: Customer) {
    me.frenchFries >= c.frenchFries && me.burger >= c.burger
  }

  /** `distance_to_me`: the Manhattan distance from the player's cell. */
  function Distance(me: Hero, p: Pos): nat {
    Abs(me.x - p.row) + Abs(me.y - p.col)
  }

  /** The cells `get_nearest_needed_resource_position` chooses from: the fries cells
      while fries are short, the burger cells otherwise. Cells the hero already owns
      are not excluded. */
  function Needed(g: Game, c: Customer): set<Pos> {
    if g.me.frenchFries < c.frenchFries then g.idx.fries.Keys else g.idx.burgers.Keys
  }

  /** The head of the cells sorted by distance from the player: a cell of least distance. Which of several
      tied cells comes first depends on dictionary order and is left open. */
  method Nearest(me: Hero, cells: set<Pos>) returns (p: Pos)
    requires cells != {}
    ensures p in cells
    ensures forall q :: q in cells ==> Distance(me, p) <= Distance(me, q)
  {
    p :| p in cells;
    var rest := cells - {p};
    while rest != {}
      invariant rest <= cells && p in cells
      invariant forall q :: q in cells - rest ==> Distance(me, p) <= Distance(me, q)
      decreases rest
    {
      var q :| q in rest;
      if Distance(me, q) < Distance(me, p) {
        p := q;
      }
      rest := rest - {q};
    }
  }

  /** `get_nearest_needed_resource_position`: the nearest cell of the resource the hero
      lacks for `c`. The source raises when that index is empty. */
  method NearestNeeded(g: Game, c: Customer) returns (p: Pos)
    requires Needed(g, c) != {}
    ensures g.me.frenchFries < c.frenchFries ==> p in g.idx.fries
    ensures g.me.frenchFries >= c.frenchFries ==> p in g.idx.burgers
    ensures forall q :: q in Needed(g, c) ==> Distance(g.me, p) <= Distance(g.me, q)
  {
    p := Nearest(g.me, Needed(g, c));
  }

  /** What `get_target` may return for `g`: with `c` the easiest customer, the
      customer's position when the hero carries enough, otherwise a nearest cell of a
      resource the hero lacks. */
  ghost predicate IsTarget(g: Game, locate: Customer -> Option<Pos>, t: Option<Pos>)
    requires |g.customers| > 0
  {
    var c := g.customers[Easiest(g.customers)];
    if Sufficient(g.me, c) then t == locate(c)
    else t.Some? && t.value in Needed(g, c) &&
         forall q :: q in Needed(g, c) ==> Distance(g.me, t.value) <= Distance(g.me, q)
  }

  /** The source's caller contract for `get_target`: some customer exists and, if the
      hero lacks something, that resource is somewhere on the board. */
  predicate CanTarget(g: Game) {
    && |g.customers| > 0
    && (!Sufficient(g.me, g.customers[Easiest(g.customers)]) ==>
          Needed(g, g.customers[Easiest(g.customers)]) != {})
  }

  /** `get_target`. `locate` stands for `find_customer_position`, which is not part of
      this model. When the hero lacks something the result is a fries cell while fries
      are short, and a burger cell only when burgers are short. */
  method GetTarget(g: Game, locate: Customer -> Option<Pos>) returns (t: Option<Pos>)
    requires CanTarget(g)
    ensures IsTarget(g, locate, t)
    ensures var c := g.customers[Easiest(g.customers)];
            !Sufficient(g.me, c) ==>
              || (t.Some? && t.value in g.idx.fries && g.me.frenchFries < c.frenchFries)
              || (t.Some? && t.value in g.idx.burgers && g.me.burger < c.burger)
  {
    var c := g.customers[Easiest(g.customers)];
    if Sufficient(g.me, c) {
      t := locate(c);
    } else {
      var p := NearestNeeded(g, c);
      t := Some(p);
    }
  }

  /** `Bot.move` as written: the path `path_find` returns from the player's cell to the
      target, target first. It is a list of cells and not one of the directions the
      server accepts. The target is returned alongside as a ghost value. */
  method Move(g: Game, locate: Customer -> Option<Pos>) returns (path: Option<seq<Pos>>, ghost t: Option<Pos>)
    requires CanTarget(g)
    ensures path.Some? ==> |path.value| >= 1 && IsTarget(g, locate, Some(path.value[0]))
    ensures path.Some? ==> IsRoute(g.board, Here(g.me), path.value[0], path.value)
    ensures path.Some? ==> Cheapest(g.board, NoHazardCost, Here(g.me), path.value[0], path.value)
    ensures path.Some? && path.value[0] != Here(g.me) ==> |path.value| >= 2
    ensures IsTarget(g, locate, t)
    ensures path.Some? ==> t == Some(path.value[0])
    ensures path.None? <==> t.None? || !Reachable(g.board, Here(g.me), t.value)
  {
    var target := GetTarget(g, locate);
    t := target;
    path := PathFind(g.board, Some(Here(g.me)), target, NoHazardCost);
  }

  /** The board string of the witness below: a fries tile nobody owns at (0, 1),
      air elsewhere. */
  const FriesCodes := "  F-    "

  const FriesGrid := Board(2, [[Tiles.Air, Tiles.FriesTile(0)], [Tiles.Air, Tiles.Air]])

  /** The witness string splits into four codes. */
  lemma FriesCodeList()
    ensures Chunks(FriesCodes, 2) == ["  ", "F-", "  ", "  "]
  {
    var s := FriesCodes;
    assert s[6..] == "  ";
    assert s[4..][..2] == "  " && s[4..][2..] == s[6..];
    assert s[2..][..2] == "F-" && s[2..][2..] == s[4..];
    assert s[..2] == "  ";
  }

  /** The four codes split into two rows. */
  lemma FriesRows()
    ensures Chunks(["  ", "F-", "  ", "  "], 2) == [["  ", "F-"], ["  ", "  "]]
  {
    var codes := ["  ", "F-", "  ", "  "];
    assert codes[..2] == ["  ", "F-"] && codes[2..] == ["  ", "  "];
  }

  /** The two rows of codes decode into the tiles of `FriesGrid`. */
  lemma FriesTiles()
    ensures DecodeRows([["  ", "F-"], ["  ", "  "]]) == Ok(FriesGrid.tiles)
  {
    var top, bottom := ["  ", "F-"], ["  ", "  "];
    assert Tiles.DecodeTile("  ") == Ok(Tiles.Air);
    assert Tiles.DecodeTile("F-") == Ok(Tiles.FriesTile(0));
    assert DecodeRow(top).Ok? && DecodeRow(top).value == FriesGrid.tiles[0];
    assert DecodeRow(bottom).Ok? && DecodeRow(bottom).value == FriesGrid.tiles[1];
    assert DecodeRows([top, bottom]).Ok? && DecodeRows([top, bottom]).value == FriesGrid.tiles;
  }

  /** The witness string parses into `FriesGrid`. */
  lemma FriesBoard()
    ensures ParseBoard(2, FriesCodes) == Ok(FriesGrid)
  {
    FriesCodeList();
    FriesRows();
    FriesTiles();
  }

  /** The only fries cell of `FriesGrid` is (0, 1). */
  lemma FriesKeys(idx: Indices)
    requires Indexes(FriesGrid, idx)
    ensures idx.fries.Keys == {Pos(0, 1)}
  {
    forall p | p in idx.fries
      ensures p == Pos(0, 1)
    {
      assert InBounds(FriesGrid, p) && TileAt(FriesGrid, p).FriesTile?;
    }
    assert InBounds(FriesGrid, Pos(0, 1)) && TileAt(FriesGrid, Pos(0, 1)).FriesTile?;
  }

  /** On `FriesGrid` the only cheapest route from (0, 0) to (0, 1) is the single step
      between them. */
  lemma OneStepRoute(p: seq<Pos>)
    requires IsRoute(FriesGrid, Pos(0, 0), Pos(0, 1), p)
    requires Cheapest(FriesGrid, NoHazardCost, Pos(0, 0), Pos(0, 1), p)
    ensures p == [Pos(0, 1), Pos(0, 0)]
  {
    var direct := [Pos(0, 1), Pos(0, 0)];
    assert IsWalk(FriesGrid, Pos(0, 1), direct, Pos(0, 0), Pos(0, 1));
    UnitCost(FriesGrid, p);
    UnitCost(FriesGrid, direct);
  }

  /** A game over `FriesGrid` whose hero at (0, 0) lacks the fries its only customer
      orders can be given a target: the fries cell. */
  lemma FriesTarget(g: Game, locate: Customer -> Option<Pos>, t: Option<Pos>)
    requires g.board == FriesGrid && Indexes(g.board, g.idx) && Here(g.me) == Pos(0, 0)
    requires |g.customers| == 1 && g.me.frenchFries < g.customers[0].frenchFries
    ensures CanTarget(g)
    ensures IsTarget(g, locate, t) ==> t == Some(Pos(0, 1))
  {
    assert Easiest(g.customers) == 0;
    FriesKeys(g.idx);
  }

  /** What `Move` promises on such a game: the one-step path onto the fries cell. */
  lemma MoveOnFries(g: Game, locate: Customer -> Option<Pos>, path: Option<seq<Pos>>, t: Option<Pos>)
    requires g.board == FriesGrid && Here(g.me) == Pos(0, 0) && t == Some(Pos(0, 1))
    requires path.Some? ==> |path.value| >= 1 && t == Some(path.value[0])
    requires path.Some? ==> IsRoute(g.board, Here(g.me), path.value[0], path.value)
    requires path.Some? ==> Cheapest(g.board, NoHazardCost, Here(g.me), path.value[0], path.value)
    requires path.None? <==> t.None? || !Reachable(g.board, Here(g.me), t.value)
    ensures path == Some([Pos(0, 1), Pos(0, 0)])
  {
    assert IsWalk(FriesGrid, Pos(0, 1), [Pos(0, 1), Pos(0, 0)], Pos(0, 0), Pos(0, 1));
    OneStepRoute(path.value);
  }

  /** A game on which `Move` yields a list of two cells where a direction is due: a
      2x2 board with a fries cell at (0, 1) and air elsewhere, the hero at (0, 0) with
      no fries, and one customer ordering one portion of fries. `locate` is not
      consulted on this branch. */
  method MoveYieldsCells() returns (path: Option<seq<Pos>>)
    ensures path == Some([Pos(0, 1), Pos(0, 0)])
  {
    var me := Hero("me", 0, 0, 100, 0, 0, 0);
    FriesBoard();
    var made := NewGame(2, FriesCodes, [me], [Customer(1, 0, 1, 0)], me);
    var g := made.value;
    var locate := (_: Customer) => None;
    FriesTarget(g, locate, None);
    ghost var t;
    path, t := Move(g, locate);
    FriesTarget(g, locate, t);
    MoveOnFries(g, locate, path, t);
  }

  /** `Bot.move` with the evident intent: the first move along that path, as
      `path_find_to` computes it. */
  method MoveDirection(g: Game, locate: Customer -> Option<Pos>) returns (m: Option<Step>, ghost t: Option<Pos>)
    requires CanTarget(g)
    ensures m == Some(Stay) ==> IsTarget(g, locate, Some(Here(g.me)))
    ensures m.Some? && m.value.Go? ==>
              exists p :: |p| >= 1 && IsTarget(g, locate, Some(p[0])) &&
                          FirstMoveOf(g.board, NoHazardCost, Here(g.me), p[0], p, m.value.dir)
    ensures IsTarget(g, locate, t)
    ensures m.Some? && m.value.Go? ==>
              t.Some? && exists p :: FirstMoveOf(g.board, NoHazardCost, Here(g.me), t.value, p, m.value.dir)
    ensures m == Some(Stay) <==> t == Some(Here(g.me))
    ensures m.None? <==> t.None? || !Reachable(g.board, Here(g.me), t.value)
  {
    var target := GetTarget(g, locate);
    t := target;
    m := PathFindTo(g.board, Some(Here(g.me)), target, NoHazardCost);
  }
}
