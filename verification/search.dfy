/** The A* pathfinder of the board (game.py: path_find, path_find_to). */
module Search {
  import opened Results
  import opened Tiles
  import opened Grid

  // ---------------------------------------------------------------------------
  // Costs and the heuristic

  /** The `hazard_cost` argument: absent, a function of the tile, or a number. */
  datatype HazardCost = NoHazardCost | PerTile(f: Tile -> int) | Flat(n: int)

  /** Every hazard costs at least one step, which makes the heuristic consistent. */
  predicate PositiveCosts(hc: HazardCost) {
    match hc
    case NoHazardCost => true
    case PerTile(f) => f(Spike) >= 1
    case Flat(n) => n >= 1
  }

  /** `cost(loc)`: entering a spike costs what the caller asked for, any other cell 1.
      The search only enters cells on the board; off the board the cost is taken as 1
      so that the function is total. */
  function StepCost(b: Board, hc: HazardCost, v: Pos): (r: int)
    ensures PositiveCosts(hc) ==> r >= 1
  {
    if InBounds(b, v) && Hazard(b, v) then
      match hc
      case NoHazardCost => 1
      case PerTile(f) => f(TileAt(b, v))
      case Flat(n) => n
    else 1
  }

  /** Integer square root by upward search from `k`. */
  function IsqrtFrom(n: nat, k: nat): (r: nat)
    requires k * k <= n
    ensures r * r <= n < (r + 1) * (r + 1)
    decreases n - k * k
  {
    if (k + 1) * (k + 1) <= n then
      assert (k + 1) * (k + 1) == k * k + 2 * k + 1;
      IsqrtFrom(n, k + 1)
    else k
  }

  function SqDist(v: Pos, t: Pos): nat {
    var dr, dc := Abs(v.row - t.row), Abs(v.col - t.col);
    dr * dr + dc * dc
  }

  /** `heuristic`: the Euclidean distance to the target, rounded down. Integer square
      root replaces `math.floor(math.sqrt(...))`. */
  function Heuristic(v: Pos, t: Pos): (h: nat)
    ensures h * h <= SqDist(v, t) < (h + 1) * (h + 1)
  {
    IsqrtFrom(SqDist(v, t), 0)
  }

  lemma SquareMono(x: nat, y: nat)
    requires x <= y
    ensures x * x <= y * y
  {
    assert x * x <= x * y;
    assert x * y <= y * y;
  }

  lemma SquareLess(x: nat, y: nat)
    requires x * x < y * y
    ensures x < y
  {
    if x >= y {
      SquareMono(y, x);
    }
  }

  /** The arithmetic core of `HeuristicStep`: `k` and `m` are the integer square roots
      of `dv` and `du`, and `du` differs from `dv` by replacing the square of `x` with
      the square of a number at most `x + 1`. */
  lemma RootStep(dv: nat, du: nat, k: nat, m: nat, x: nat, x': nat)
    requires k * k <= dv < (k + 1) * (k + 1)
    requires m * m <= du
    requires x * x <= dv && x' <= x + 1
    requires du + x * x <= dv + x' * x'
    ensures m <= k + 1
  {
    SquareLess(x, k + 1);
    SquareMono(x', x + 1);
    assert (x + 1) * (x + 1) == x * x + 2 * x + 1;
    assert x' * x' <= x * x + 2 * k + 1;
    assert (k + 1) * (k + 1) == k * k + 2 * k + 1;
    assert du <= k * k + 4 * k + 1;
    assert (k + 2) * (k + 2) == k * k + 4 * k + 4;
    SquareLess(m, k + 2);
  }

  /** One step changes the rounded Euclidean distance by at most one: the heuristic
      never drops faster than the cost of a step. */
  lemma HeuristicStep(u: Pos, v: Pos, t: Pos)
    requires Adjacent(u, v)
    ensures Heuristic(u, t) <= Heuristic(v, t) + 1
  {
    var a, e := Abs(v.row - t.row), Abs(v.col - t.col);
    var a', e' := Abs(u.row - t.row), Abs(u.col - t.col);
    var dv, du := SqDist(v, t), SqDist(u, t);
    assert dv == a * a + e * e && du == a' * a' + e' * e';
    if u.row == v.row {
      assert a' == a && e' <= e + 1;
      RootStep(dv, du, Heuristic(v, t), Heuristic(u, t), e, e');
    } else {
      assert e' == e && a' <= a + 1;
      RootStep(dv, du, Heuristic(v, t), Heuristic(u, t), a, a');
    }
  }

  // ---------------------------------------------------------------------------
  // Walks

  /** A cell the search may step onto: on the board, and passable unless it is the
      target itself (the target may be a customer, resource or hero tile). */
  predicate Enterable(b: Board, t: Pos, v: Pos) {
    InBounds(b, v) && (v == t || Passable(b, v))
  }

  /** `p` lists a walk backwards, as `path_find` does: each cell is one step on from
      the cell after it, and every cell but the walk's first (the last of `p`) can be
      stepped onto. */
  predicate Chained(b: Board, t: Pos, p: seq<Pos>) {
    forall i :: 0 <= i < |p| - 1 ==> Adjacent(p[i + 1], p[i]) && Enterable(b, t, p[i])
  }

  /** `p` is a backwards walk that starts at `from` and ends at `to`. */
  predicate IsWalk(b: Board, t: Pos, p: seq<Pos>, from: Pos, to: Pos) {
    |p| >= 1 && p[0] == to && p[|p| - 1] == from && Chained(b, t, p)
  }

  /** The shape of a `path_find` result: a backwards walk from `s` to `t` whose cells
      strictly between the two ends are passable. */
  predicate IsRoute(b: Board, s: Pos, t: Pos, p: seq<Pos>) {
    && IsWalk(b, t, p, s, t)
    && forall i :: 0 < i < |p| - 1 ==> InBounds(b, p[i]) && Passable(b, p[i])
  }

  /** The cost of a backwards walk: the sum of `cost` over every cell but the start. */
  function Cost(b: Board, hc: HazardCost, p: seq<Pos>): int {
    if |p| <= 1 then 0 else StepCost(b, hc, p[0]) + Cost(b, hc, p[1..])
  }

  /** The cost of the first `j` cells of `p`. */
  function PartCost(b: Board, hc: HazardCost, p: seq<Pos>, j: nat): int
    requires j <= |p|
  {
    if j == 0 then 0 else PartCost(b, hc, p, j - 1) + StepCost(b, hc, p[j - 1])
  }

  /** Without a hazard cost every step costs one, so a walk costs its number of steps. */
  lemma {:induction false} UnitCost(b: Board, p: seq<Pos>)
    requires |p| >= 1
    ensures Cost(b, NoHazardCost, p) == |p| - 1
  {
    if |p| > 1 {
      UnitCost(b, p[1..]);
    }
  }

  ghost predicate Reachable(b: Board, s: Pos, t: Pos) {
    exists q :: IsWalk(b, t, q, s, t)
  }

  /** No walk from `s` to `t` costs less than `p`. */
  ghost predicate Cheapest(b: Board, hc: HazardCost, s: Pos, t: Pos, p: seq<Pos>) {
    forall q :: IsWalk(b, t, q, s, t) ==> Cost(b, hc, p) <= Cost(b, hc, q)
  }

  lemma {:induction false} CostSplit(b: Board, hc: HazardCost, p: seq<Pos>, j: nat)
    requires j < |p|
    ensures Cost(b, hc, p) == PartCost(b, hc, p, j) + Cost(b, hc, p[j..])
    decreases j
  {
    if j > 0 {
      CostSplit(b, hc, p, j - 1);
      assert p[j - 1..][1..] == p[j..];
    } else {
      assert p[0..] == p;
    }
  }

  lemma {:induction false} WalkSuffix(b: Board, t: Pos, p: seq<Pos>, from: Pos, to: Pos, j: nat)
    requires IsWalk(b, t, p, from, to) && j < |p|
    ensures IsWalk(b, t, p[j..], from, p[j])
  {
    var q := p[j..];
    forall i | 0 <= i < |q| - 1
      ensures Adjacent(q[i + 1], q[i]) && Enterable(b, t, q[i])
    {
      assert q[i] == p[j + i] && q[i + 1] == p[j + i + 1];
    }
  }

  /** Along a walk the heuristic grows by at most the cost paid. */
  lemma {:induction false} HeuristicAlongWalk(b: Board, hc: HazardCost, t: Pos, p: seq<Pos>, j: nat)
    requires PositiveCosts(hc) && Chained(b, t, p) && j < |p|
    ensures Heuristic(p[j], t) <= PartCost(b, hc, p, j) + Heuristic(p[0], t)
    decreases j
  {
    if j > 0 {
      HeuristicAlongWalk(b, hc, t, p, j - 1);
      assert Adjacent(p[j], p[j - 1]);
      HeuristicStep(p[j], p[j - 1], t);
    }
  }

  // ---------------------------------------------------------------------------
  // The search state and its invariants

  /** The working sets of one `path_find` call. `fScore` is not kept: the source sets
      it to `g + heuristic` every time `g` changes, so it is computed when needed. */
  datatype SearchState = SearchState(
    open: set<Pos>,
    closed: set<Pos>,
    cameFrom: map<Pos, Pos>,
    g: map<Pos, int>)

  /** The open and closed sets are disjoint, make up the cells with a g-score, and the
      target is never closed. */
  ghost predicate Basic(t: Pos, st: SearchState) {
    st.open !! st.closed && st.g.Keys == st.open + st.closed && t !in st.closed
  }

  /** The sets and maps cover the same cells: the discovered cells are the open and the
      closed ones, each has a g-score, each but the start has a predecessor, and all lie
      on the board. The start is open until the first expansion and closed afterwards;
      the target is never closed. */
  ghost predicate Shape(b: Board, s: Pos, t: Pos, st: SearchState) {
    && s in st.g && st.g[s] == 0 && s !in st.cameFrom
    && Basic(t, st)
    && st.cameFrom.Keys == (st.open + st.closed) - {s}
    && (forall v :: v in st.g ==> v == s || InBounds(b, v))
    && (st.closed == {} ==> st.open == {s})
    && (st.closed != {} ==> s in st.closed)
  }

  /** Every discovered cell but the start has a closed predecessor one step away, can be
      stepped onto, and has a g-score one cell's cost above its predecessor's. */
  ghost predicate Links(b: Board, hc: HazardCost, t: Pos, st: SearchState) {
    forall v {:trigger v in st.cameFrom} :: v in st.cameFrom ==>
      && st.cameFrom[v] in st.closed
      && Adjacent(st.cameFrom[v], v)
      && Enterable(b, t, v)
      && v in st.g && st.cameFrom[v] in st.g
      && st.g[v] == st.g[st.cameFrom[v]] + StepCost(b, hc, v)
  }

  /** `rank` numbers the closed cells in closing order; a closed cell's predecessor was
      closed before it. */
  ghost predicate Ranked(st: SearchState, rank: map<Pos, nat>) {
    && rank.Keys == st.closed
    && (forall v :: v in rank ==> rank[v] < |st.closed|)
    && (forall v {:trigger v in st.cameFrom} :: v in st.cameFrom && v in st.closed ==> st.cameFrom[v] in rank && rank[st.cameFrom[v]] < rank[v])
  }

  /** The bookkeeping the search keeps whatever the costs. */
  ghost predicate Linked(b: Board, hc: HazardCost, s: Pos, t: Pos, st: SearchState, rank: map<Pos, nat>) {
    Shape(b, s, t, st) && Links(b, hc, t, st) && Ranked(st, rank)
  }

  /** After expanding `x`, its neighbour `y` is closed, not enterable, or open with a
      g-score no worse than going through `x`. */
  ghost predicate Covered(b: Board, hc: HazardCost, t: Pos, st: SearchState, x: Pos, y: Pos) {
    Enterable(b, t, y) && y !in st.closed ==>
      y in st.open && y in st.g && x in st.g && st.g[y] <= st.g[x] + StepCost(b, hc, y)
  }

  ghost predicate Frontier(b: Board, hc: HazardCost, t: Pos, st: SearchState) {
    forall x, y :: x in st.closed && Adjacent(x, y) ==> Covered(b, hc, t, st, x, y)
  }

  /** Closed cells carry their optimal g-score. */
  ghost predicate Settled(b: Board, hc: HazardCost, s: Pos, t: Pos, st: SearchState) {
    forall x, q :: x in st.closed && IsWalk(b, t, q, s, x) ==> x in st.g && st.g[x] <= Cost(b, hc, q)
  }

  /** `st2` only grew the open set and lowered open g-scores. */
  ghost predicate Improves(st1: SearchState, st2: SearchState) {
    && st2.closed == st1.closed
    && st1.open <= st2.open
    && st1.g.Keys <= st2.g.Keys
    && (forall v :: v in st1.closed && v in st1.g ==> v in st2.g && st2.g[v] == st1.g[v])
    && (forall v :: v in st1.open && v in st1.g ==> v in st2.g && st2.g[v] <= st1.g[v])
  }

  function Key(g: map<Pos, int>, t: Pos, v: Pos): int
    requires v in g
  {
    g[v] + Heuristic(v, t)
  }

  // ---------------------------------------------------------------------------
  // One step of the search

  /** The body of the neighbour loop for neighbour `y` of `current`. Adding a cell that
      is already open changes nothing, so both branches that record the new way in are
      `Update`. */
  function Relax(b: Board, hc: HazardCost, t: Pos, st: SearchState, current: Pos, y: Pos): (r: SearchState)
    requires current in st.g && st.open <= st.g.Keys
    ensures r.closed == st.closed && st.g.Keys <= r.g.Keys && r.open <= r.g.Keys
    ensures st.g.Keys == st.open + st.closed ==> r.g.Keys == r.open + r.closed
  {
    if !InBounds(b, y) || (y != t && (y in st.closed || !Passable(b, y))) then st
    else
      var tentative := st.g[current] + StepCost(b, hc, y);
      if y in st.open && tentative >= st.g[y] then st
      else Update(st, current, y, tentative)
  }

  /** Relaxing either leaves the state alone or records a strictly better way into an
      enterable cell that is not closed. */
  lemma RelaxCases(b: Board, hc: HazardCost, t: Pos, st: SearchState, current: Pos, y: Pos)
    requires current in st.g && st.open <= st.g.Keys && t !in st.closed
    ensures var r := Relax(b, hc, t, st, current, y);
            || r == st
            || (&& r == Update(st, current, y, st.g[current] + StepCost(b, hc, y))
                && y !in st.closed && Enterable(b, t, y)
                && (y in st.open ==> st.g[current] + StepCost(b, hc, y) < st.g[y]))
  {
  }

  /** A single relaxation keeps the bookkeeping. */
  lemma RelaxKeeps(b: Board, hc: HazardCost, s: Pos, t: Pos, st: SearchState, rank: map<Pos, nat>, current: Pos, y: Pos)
    requires Linked(b, hc, s, t, st, rank) && current in st.closed && Adjacent(current, y)
    ensures Linked(b, hc, s, t, Relax(b, hc, t, st, current, y), rank)
  {
    RelaxShape(b, s, t, st, current, y, hc);
    RelaxLinks(b, hc, t, st, current, y);
    RelaxRanked(b, hc, t, st, rank, current, y);
  }

  lemma RelaxShape(b: Board, s: Pos, t: Pos, st: SearchState, current: Pos, y: Pos, hc: HazardCost)
    requires Shape(b, s, t, st) && current in st.closed
    ensures Shape(b, s, t, Relax(b, hc, t, st, current, y))
  {
    if InBounds(b, y) && (y == t || (y !in st.closed && Passable(b, y))) {
      var tentative := st.g[current] + StepCost(b, hc, y);
      if !(y in st.open && tentative >= st.g[y]) {
        assert s in st.closed;
        ShapeAfterUpdate(b, s, t, st, current, y, tentative);
      }
    }
  }

  lemma RelaxLinks(b: Board, hc: HazardCost, t: Pos, st: SearchState, current: Pos, y: Pos)
    requires Links(b, hc, t, st) && current in st.closed && current in st.g && t !in st.closed
    requires st.open <= st.g.Keys && Adjacent(current, y)
    ensures Links(b, hc, t, Relax(b, hc, t, st, current, y))
  {
    if InBounds(b, y) && (y == t || (y !in st.closed && Passable(b, y))) {
      var tentative := st.g[current] + StepCost(b, hc, y);
      if !(y in st.open && tentative >= st.g[y]) {
        LinksAfterUpdate(b, hc, t, st, current, y, tentative);
      }
    }
  }

  lemma RelaxRanked(b: Board, hc: HazardCost, t: Pos, st: SearchState, rank: map<Pos, nat>, current: Pos, y: Pos)
    requires Ranked(st, rank) && current in st.g && st.open <= st.g.Keys && t !in st.closed
    ensures Ranked(Relax(b, hc, t, st, current, y), rank)
  {
    if InBounds(b, y) && (y == t || (y !in st.closed && Passable(b, y))) {
      var tentative := st.g[current] + StepCost(b, hc, y);
      if !(y in st.open && tentative >= st.g[y]) {
        RankedAfterUpdate(st, rank, current, y, tentative);
      }
    }
  }

  lemma RelaxImproves(b: Board, hc: HazardCost, t: Pos, st: SearchState, current: Pos, y: Pos)
    requires Basic(t, st) && current in st.closed
    ensures Basic(t, Relax(b, hc, t, st, current, y))
    ensures Improves(st, Relax(b, hc, t, st, current, y))
    ensures Covered(b, hc, t, Relax(b, hc, t, st, current, y), current, y)
  {
    if !InBounds(b, y) || (y != t && (y in st.closed || !Passable(b, y))) {
    } else {
      var tentative := st.g[current] + StepCost(b, hc, y);
      if y !in st.open || tentative < st.g[y] {
        assert Relax(b, hc, t, st, current, y) == Update(st, current, y, tentative);
      }
    }
  }

  /** The state after `came_from[y] = current` and `g[y] = tentative`, `y` joining the
      open set if it was not there. */
  function Update(st: SearchState, current: Pos, y: Pos, tentative: int): SearchState {
    SearchState(st.open + {y}, st.closed, st.cameFrom[y := current], st.g[y := tentative])
  }

  lemma UpdateKeeps(b: Board, hc: HazardCost, s: Pos, t: Pos, st: SearchState, rank: map<Pos, nat>, current: Pos, y: Pos, tentative: int)
    requires Linked(b, hc, s, t, st, rank) && current in st.closed && Adjacent(current, y)
    requires y !in st.closed && Enterable(b, t, y)
    requires tentative == st.g[current] + StepCost(b, hc, y)
    requires y in st.open ==> tentative < st.g[y]
    ensures Linked(b, hc, s, t, Update(st, current, y, tentative), rank)
  {
    assert s in st.closed;
    LinksAfterUpdate(b, hc, t, st, current, y, tentative);
    ShapeAfterUpdate(b, s, t, st, current, y, tentative);
    RankedAfterUpdate(st, rank, current, y, tentative);
  }

  lemma RankedAfterUpdate(st: SearchState, rank: map<Pos, nat>, current: Pos, y: Pos, tentative: int)
    requires Ranked(st, rank) && y !in st.closed
    ensures Ranked(Update(st, current, y, tentative), rank)
  {
    var st' := Update(st, current, y, tentative);
    forall v | v in st'.cameFrom && v in st'.closed
      ensures st'.cameFrom[v] in rank && rank[st'.cameFrom[v]] < rank[v]
    {
      assert v != y && v in st.cameFrom;
    }
  }

  lemma ShapeAfterUpdate(b: Board, s: Pos, t: Pos, st: SearchState, current: Pos, y: Pos, tentative: int)
    requires Shape(b, s, t, st) && current in st.closed
    requires y !in st.closed && y != s && InBounds(b, y)
    ensures Shape(b, s, t, Update(st, current, y, tentative))
  {
    var st' := Update(st, current, y, tentative);
    assert st'.g.Keys == st.g.Keys + {y};
    assert st'.cameFrom.Keys == st.cameFrom.Keys + {y};
  }

  /** Re-pointing the unclosed cell `y` at the closed cell `current` keeps every link valid. */
  lemma LinksAfterUpdate(b: Board, hc: HazardCost, t: Pos, st: SearchState, current: Pos, y: Pos, tentative: int)
    requires current in st.closed && y !in st.closed
    requires current in st.g && Links(b, hc, t, st)
    requires Adjacent(current, y) && Enterable(b, t, y)
    requires tentative == st.g[current] + StepCost(b, hc, y)
    ensures Links(b, hc, t, Update(st, current, y, tentative))
  {
    var st' := Update(st, current, y, tentative);
    forall v | v in st'.cameFrom
      ensures st'.cameFrom[v] in st'.closed && st'.g[v] == st'.g[st'.cameFrom[v]] + StepCost(b, hc, v)
    {
      if v != y {
        assert st'.cameFrom[v] in st.closed;
        assert st'.cameFrom[v] != y;
      }
    }
  }

  lemma CoveredKept(b: Board, hc: HazardCost, t: Pos, st1: SearchState, st2: SearchState, x: Pos, y: Pos)
    requires Improves(st1, st2) && x in st1.closed && Covered(b, hc, t, st1, x, y)
    ensures Covered(b, hc, t, st2, x, y)
  {
  }

  /** The four AIM directions. The source visits them in dictionary order; each
      relaxation touches only its own neighbour, so the order does not matter. */
  const Aims: seq<Dir> := [North, East, South, West]

  /** The neighbour loop over `dirs`, relaxing each neighbour of `current` in turn. */
  function RelaxAll(b: Board, hc: HazardCost, t: Pos, st: SearchState, current: Pos, dirs: seq<Dir>): (r: SearchState)
    requires current in st.g && st.open <= st.g.Keys
    ensures r.closed == st.closed && st.g.Keys <= r.g.Keys && r.open <= r.g.Keys
    ensures st.g.Keys == st.open + st.closed ==> r.g.Keys == r.open + r.closed
    decreases |dirs|
  {
    if dirs == [] then st
    else RelaxAll(b, hc, t, Relax(b, hc, t, st, current, Neighbor(current, dirs[0])), current, dirs[1..])
  }

  /** Expanding `current`: the neighbour loop over the AIM table. */
  function Expand(b: Board, hc: HazardCost, t: Pos, st: SearchState, current: Pos): SearchState
    requires current in st.g && st.open <= st.g.Keys
  {
    RelaxAll(b, hc, t, st, current, Aims)
  }

  lemma ImprovesTrans(st1: SearchState, st2: SearchState, st3: SearchState)
    requires Improves(st1, st2) && Improves(st2, st3)
    ensures Improves(st1, st3)
  {
  }

  /** Every adjacent cell is one of the four neighbours the AIM table yields. */
  lemma AdjacentIsNeighbor(u: Pos, v: Pos)
    requires Adjacent(u, v)
    ensures v == Neighbor(u, North) || v == Neighbor(u, East) || v == Neighbor(u, South) || v == Neighbor(u, West)
  {
    var d := DirToward(u, v);
  }

  /** Every cell closed before `current` has its neighbours covered. */
  ghost predicate FrontierExcept(b: Board, hc: HazardCost, t: Pos, st: SearchState, current: Pos) {
    forall x, y :: x in st.closed && x != current && Adjacent(x, y) ==> Covered(b, hc, t, st, x, y)
  }

  /** Expanding a closed cell keeps the bookkeeping. */
  lemma {:induction false} RelaxAllLinked(b: Board, hc: HazardCost, s: Pos, t: Pos, st: SearchState, rank: map<Pos, nat>, current: Pos, dirs: seq<Dir>)
    requires Linked(b, hc, s, t, st, rank) && current in st.closed
    ensures Linked(b, hc, s, t, RelaxAll(b, hc, t, st, current, dirs), rank)
    decreases |dirs|
  {
    if dirs != [] {
      var y := Neighbor(current, dirs[0]);
      NeighborsAreAdjacent(current, y);
      RelaxKeeps(b, hc, s, t, st, rank, current, y);
      RelaxAllLinked(b, hc, s, t, Relax(b, hc, t, st, current, y), rank, current, dirs[1..]);
    }
  }

  /** Relaxing the neighbours in `dirs` only improves the state, and afterwards each of
      them is covered. */
  lemma {:induction false} RelaxAllImproves(b: Board, hc: HazardCost, t: Pos, st: SearchState, current: Pos, dirs: seq<Dir>)
    requires Basic(t, st) && current in st.closed
    ensures Basic(t, RelaxAll(b, hc, t, st, current, dirs))
    ensures Improves(st, RelaxAll(b, hc, t, st, current, dirs))
    ensures forall d :: d in dirs ==> Covered(b, hc, t, RelaxAll(b, hc, t, st, current, dirs), current, Neighbor(current, d))
    decreases |dirs|
  {
    if dirs != [] {
      var y := Neighbor(current, dirs[0]);
      var st1 := Relax(b, hc, t, st, current, y);
      var r := RelaxAll(b, hc, t, st1, current, dirs[1..]);
      RelaxImproves(b, hc, t, st, current, y);
      RelaxAllImproves(b, hc, t, st1, current, dirs[1..]);
      ImprovesTrans(st, st1, r);
      CoveredKept(b, hc, t, st1, r, current, y);
      forall d | d in dirs
        ensures Covered(b, hc, t, r, current, Neighbor(current, d))
      {
        if d != dirs[0] {
          assert d in dirs[1..];
        }
      }
    }
  }

  /** After expansion every neighbour of the expanded cell is covered. */
  lemma ExpandCovers(b: Board, hc: HazardCost, t: Pos, st: SearchState, current: Pos)
    requires Basic(t, st) && current in st.closed
    ensures Basic(t, Expand(b, hc, t, st, current))
    ensures Improves(st, Expand(b, hc, t, st, current))
    ensures forall y :: Adjacent(current, y) ==> Covered(b, hc, t, Expand(b, hc, t, st, current), current, y)
  {
    RelaxAllImproves(b, hc, t, st, current, Aims);
    forall y | Adjacent(current, y)
      ensures Covered(b, hc, t, Expand(b, hc, t, st, current), current, y)
    {
      AdjacentIsNeighbor(current, y);
    }
  }

  /** After expanding `current`, every closed cell has its neighbours covered. */
  lemma ExpandFrontier(b: Board, hc: HazardCost, t: Pos, st: SearchState, st': SearchState, current: Pos)
    requires Improves(st, st') && FrontierExcept(b, hc, t, st, current)
    requires forall y :: Adjacent(current, y) ==> Covered(b, hc, t, st', current, y)
    ensures Frontier(b, hc, t, st')
  {
    forall x, y | x in st'.closed && Adjacent(x, y)
      ensures Covered(b, hc, t, st', x, y)
    {
      if x != current {
        CoveredKept(b, hc, t, st, st', x, y);
      }
    }
  }

  lemma SettledKept(b: Board, hc: HazardCost, s: Pos, t: Pos, st: SearchState, st': SearchState)
    requires Improves(st, st') && Settled(b, hc, s, t, st) && st.closed <= st.g.Keys
    ensures Settled(b, hc, s, t, st')
  {
  }

  /** The open cell `current` has the least `g + heuristic` of the open set. */
  ghost predicate IsMin(t: Pos, st: SearchState, current: Pos) {
    && current in st.open && current in st.g
    && forall v :: v in st.open && v in st.g ==> Key(st.g, t, current) <= Key(st.g, t, v)
  }

  /** Moves `current` from the open set to the closed set; scores and links are kept. */
  function Close(st: SearchState, current: Pos): SearchState {
    SearchState(st.open - {current}, st.closed + {current}, st.cameFrom, st.g)
  }

  /** Closing an open cell other than the target keeps the bookkeeping, with the new
      cell ranked last. */
  lemma CloseLinked(b: Board, hc: HazardCost, s: Pos, t: Pos, st: SearchState, rank: map<Pos, nat>, current: Pos)
    requires Linked(b, hc, s, t, st, rank) && current in st.open && current != t
    ensures Linked(b, hc, s, t, Close(st, current), rank[current := |st.closed|])
  {
    CloseShape(b, s, t, st, current);
    CloseLinks(b, hc, t, st, current);
    CloseRanked(st, rank, current);
  }

  lemma CloseShape(b: Board, s: Pos, t: Pos, st: SearchState, current: Pos)
    requires Shape(b, s, t, st) && current in st.open && current != t
    ensures Shape(b, s, t, Close(st, current))
  {
  }

  lemma CloseLinks(b: Board, hc: HazardCost, t: Pos, st: SearchState, current: Pos)
    requires Links(b, hc, t, st)
    ensures Links(b, hc, t, Close(st, current))
  {
  }

  lemma CloseRanked(st: SearchState, rank: map<Pos, nat>, current: Pos)
    requires Ranked(st, rank) && current !in st.closed
    requires forall v {:trigger v in st.cameFrom} :: v in st.cameFrom ==> st.cameFrom[v] in st.closed
    ensures Ranked(Close(st, current), rank[current := |st.closed|])
  {
    var st' := Close(st, current);
    var rank' := rank[current := |st.closed|];
    assert |st'.closed| == |st.closed| + 1;
    forall v | v in st'.cameFrom && v in st'.closed
      ensures st'.cameFrom[v] in rank' && rank'[st'.cameFrom[v]] < rank'[v]
    {
      assert st.cameFrom[v] in st.closed;
    }
  }

  /** When hazards cost at least one, closing the cheapest open cell keeps every closed
      g-score optimal. */
  lemma CloseSettled(b: Board, hc: HazardCost, s: Pos, t: Pos, st: SearchState, rank: map<Pos, nat>, current: Pos)
    requires Linked(b, hc, s, t, st, rank) && Frontier(b, hc, t, st) && Settled(b, hc, s, t, st)
    requires PositiveCosts(hc) && IsMin(t, st, current)
    ensures Settled(b, hc, s, t, Close(st, current))
  {
    var st' := Close(st, current);
    forall x, q | x in st'.closed && IsWalk(b, t, q, s, x)
      ensures x in st'.g && st'.g[x] <= Cost(b, hc, q)
    {
      if x == current {
        PopOptimal(b, hc, s, t, st, rank, current, q);
      }
    }
  }

  lemma CloseFrontier(b: Board, hc: HazardCost, t: Pos, st: SearchState, current: Pos)
    requires Frontier(b, hc, t, st)
    ensures FrontierExcept(b, hc, t, Close(st, current), current)
  {
    var st' := Close(st, current);
    forall x, y | x in st'.closed && x != current && Adjacent(x, y)
      ensures Covered(b, hc, t, st', x, y)
    {
      assert Covered(b, hc, t, st, x, y);
    }
  }

  /** One round of the main loop, closing and expanding the cheapest open cell other
      than the target, keeps every invariant. */
  lemma StepKeeps(b: Board, hc: HazardCost, s: Pos, t: Pos, st: SearchState, rank: map<Pos, nat>, current: Pos)
    requires Linked(b, hc, s, t, st, rank) && Frontier(b, hc, t, st) && IsMin(t, st, current) && current != t
    requires PositiveCosts(hc) ==> Settled(b, hc, s, t, st)
    ensures Close(st, current).g.Keys == Close(st, current).open + Close(st, current).closed
    ensures current in Close(st, current).g
    ensures Linked(b, hc, s, t, Expand(b, hc, t, Close(st, current), current), rank[current := |st.closed|])
    ensures Frontier(b, hc, t, Expand(b, hc, t, Close(st, current), current))
    ensures PositiveCosts(hc) ==> Settled(b, hc, s, t, Expand(b, hc, t, Close(st, current), current))
    ensures Expand(b, hc, t, Close(st, current), current).closed == st.closed + {current}
  {
    var st1 := Close(st, current);
    CloseLinked(b, hc, s, t, st, rank, current);
    RelaxAllLinked(b, hc, s, t, st1, rank[current := |st.closed|], current, Aims);
    ExpandCovers(b, hc, t, st1, current);
    var st2 := Expand(b, hc, t, st1, current);
    CloseFrontier(b, hc, t, st, current);
    ExpandFrontier(b, hc, t, st1, st2, current);
    if PositiveCosts(hc) {
      CloseSettled(b, hc, s, t, st, rank, current);
      SettledKept(b, hc, s, t, st1, st2);
    }
  }

  /** On any walk from the start to a cell that is not closed there is an open cell whose
      g-score is no more than the cost of the walk up to it. */
  lemma {:induction false} FrontierOnWalk(b: Board, hc: HazardCost, s: Pos, t: Pos, st: SearchState, rank: map<Pos, nat>, q: seq<Pos>, u: Pos)
    returns (j: nat)
    requires Linked(b, hc, s, t, st, rank) && Frontier(b, hc, t, st) && Settled(b, hc, s, t, st)
    requires IsWalk(b, t, q, s, u) && u !in st.closed
    ensures j < |q| && q[j] in st.open && q[j] in st.g
    ensures st.g[q[j]] <= Cost(b, hc, q[j..])
    decreases |q|
  {
    if |q| == 1 {
      j := 0;
      assert q[0..] == q;
    } else {
      var q' := q[1..];
      WalkSuffix(b, t, q, s, u, 1);
      assert Adjacent(q[1], q[0]) && Enterable(b, t, q[0]);
      if q[1] !in st.closed {
        var j' := FrontierOnWalk(b, hc, s, t, st, rank, q', q[1]);
        j := j' + 1;
        assert q'[j'..] == q[j..];
      } else {
        assert st.g[q[1]] <= Cost(b, hc, q');
        assert Covered(b, hc, t, st, q[1], q[0]);
        j := 0;
        assert q[0..] == q;
      }
    }
  }

  /** The cell the search pops next has the least cost over all walks to it. */
  lemma PopOptimal(b: Board, hc: HazardCost, s: Pos, t: Pos, st: SearchState, rank: map<Pos, nat>, u: Pos, q: seq<Pos>)
    requires Linked(b, hc, s, t, st, rank) && Frontier(b, hc, t, st) && Settled(b, hc, s, t, st)
    requires PositiveCosts(hc) && IsMin(t, st, u) && IsWalk(b, t, q, s, u)
    ensures st.g[u] <= Cost(b, hc, q)
  {
    var j := FrontierOnWalk(b, hc, s, t, st, rank, q, u);
    assert Key(st.g, t, u) <= Key(st.g, t, q[j]);
    HeuristicAlongWalk(b, hc, t, q, j);
    CostSplit(b, hc, q, j);
  }

  /** Whatever the costs, every walk from the start to a cell that is not closed
      crosses an open cell. */
  lemma {:induction false} OpenOnWalk(b: Board, hc: HazardCost, s: Pos, t: Pos, st: SearchState, rank: map<Pos, nat>, q: seq<Pos>, u: Pos)
    returns (j: nat)
    requires Linked(b, hc, s, t, st, rank) && Frontier(b, hc, t, st)
    requires IsWalk(b, t, q, s, u) && u !in st.closed
    ensures j < |q| && q[j] in st.open
    decreases |q|
  {
    if |q| == 1 {
      j := 0;
    } else {
      WalkSuffix(b, t, q, s, u, 1);
      assert Adjacent(q[1], q[0]) && Enterable(b, t, q[0]);
      if q[1] !in st.closed {
        var j' := OpenOnWalk(b, hc, s, t, st, rank, q[1..], q[1]);
        j := j' + 1;
      } else {
        assert Covered(b, hc, t, st, q[1], q[0]);
        j := 0;
      }
    }
  }

  /** When the open set runs dry, no walk reaches the target, whatever the costs. */
  lemma Exhausted(b: Board, hc: HazardCost, s: Pos, t: Pos, st: SearchState, rank: map<Pos, nat>)
    requires Linked(b, hc, s, t, st, rank) && Frontier(b, hc, t, st)
    requires st.open == {}
    ensures s != t
    ensures !Reachable(b, s, t)
  {
    if q :| IsWalk(b, t, q, s, t) {
      var j := OpenOnWalk(b, hc, s, t, st, rank, q, t);
      assert false;
    }
  }

  // ---------------------------------------------------------------------------
  // Selecting the next cell and rebuilding the path

  /** The head of the open cells sorted by f-score: an open cell of least `g + heuristic`.
      Which of several tied cells is chosen is left open. */
  method PickMin(open: set<Pos>, g: map<Pos, int>, t: Pos) returns (current: Pos)
    requires open != {} && open <= g.Keys
    ensures current in open
    ensures forall v :: v in open ==> Key(g, t, current) <= Key(g, t, v)
  {
    current :| current in open;
    var rest := open - {current};
    while rest != {}
      invariant rest <= open && current in open
      invariant forall v :: v in open - rest ==> Key(g, t, current) <= Key(g, t, v)
      decreases rest
    {
      var v :| v in rest;
      if Key(g, t, v) < Key(g, t, current) {
        current := v;
      }
      rest := rest - {v};
    }
  }

  /** `order` strictly decreases along `cameFrom` links. */
  ghost predicate Acyclic(cameFrom: map<Pos, Pos>, order: map<Pos, nat>) {
    forall v :: v in cameFrom ==> v in order && cameFrom[v] in order && order[cameFrom[v]] < order[v]
  }

  /** `reconstruct`: follow `came_from` from `current` until a cell without a predecessor,
      collecting the cells in the order visited. */
  method Reconstruct(cameFrom: map<Pos, Pos>, current: Pos, ghost order: map<Pos, nat>) returns (path: seq<Pos>)
    requires Acyclic(cameFrom, order)
    ensures |path| >= 1 && path[0] == current
    ensures path[|path| - 1] !in cameFrom
    ensures forall i :: 0 <= i < |path| - 1 ==> path[i] in cameFrom && path[i + 1] == cameFrom[path[i]]
  {
    path := [current];
    var cur := current;
    while cur in cameFrom
      invariant |path| >= 1 && path[0] == current && path[|path| - 1] == cur
      invariant forall i :: 0 <= i < |path| - 1 ==> path[i] in cameFrom && path[i + 1] == cameFrom[path[i]]
      decreases if cur in cameFrom then order[cur] + 1 else 0
    {
      cur := cameFrom[cur];
      path := path + [cur];
    }
  }

  /** Closing order, with every open cell ranked after all closed ones, orders the links. */
  lemma RankedAcyclic(st: SearchState, rank: map<Pos, nat>)
    returns (order: map<Pos, nat>)
    requires Ranked(st, rank) && forall v {:trigger v in st.cameFrom} :: v in st.cameFrom ==> st.cameFrom[v] in st.closed
    ensures Acyclic(st.cameFrom, order)
  {
    order := map v | v in st.cameFrom.Keys + st.closed :: if v in rank then rank[v] else |st.closed|;
    forall v | v in st.cameFrom
      ensures v in order && st.cameFrom[v] in order && order[st.cameFrom[v]] < order[v]
    {
      var u := st.cameFrom[v];
      assert u in rank && rank[u] < |st.closed|;
      assert order[u] == rank[u];
      if v in rank {
        assert order[v] == rank[v];
      } else {
        assert order[v] == |st.closed|;
      }
    }
  }

  /** A cost telescopes along `cameFrom` links down to the g-scores of the two ends. */
  lemma {:induction false} ChainCost(b: Board, hc: HazardCost, t: Pos, st: SearchState, p: seq<Pos>)
    requires Links(b, hc, t, st) && |p| >= 1 && p[|p| - 1] in st.g && p[0] in st.g
    requires forall i :: 0 <= i < |p| - 1 ==> p[i] in st.cameFrom && p[i + 1] == st.cameFrom[p[i]]
    ensures Cost(b, hc, p) == st.g[p[0]] - st.g[p[|p| - 1]]
    decreases |p|
  {
    if |p| > 1 {
      var p' := p[1..];
      forall i | 0 <= i < |p'| - 1
        ensures p'[i] in st.cameFrom && p'[i + 1] == st.cameFrom[p'[i]]
      {
        assert p'[i] == p[i + 1] && p'[i + 1] == p[i + 2];
      }
      ChainCost(b, hc, t, st, p');
    }
  }

  /** The path rebuilt from the target is a route from the start and costs g(target). */
  lemma ChainRoute(b: Board, hc: HazardCost, s: Pos, t: Pos, st: SearchState, rank: map<Pos, nat>, p: seq<Pos>)
    requires Linked(b, hc, s, t, st, rank) && t in st.open
    requires |p| >= 1 && p[0] == t && p[|p| - 1] !in st.cameFrom
    requires forall i :: 0 <= i < |p| - 1 ==> p[i] in st.cameFrom && p[i + 1] == st.cameFrom[p[i]]
    ensures IsRoute(b, s, t, p)
    ensures Cost(b, hc, p) == st.g[t]
  {
    assert forall i :: 0 < i < |p| ==> p[i] in st.closed by {
      forall i | 0 < i < |p|
        ensures p[i] in st.closed
      {
        assert p[i] == st.cameFrom[p[i - 1]];
      }
    }
    assert p[|p| - 1] in st.open + st.closed;
    assert p[|p| - 1] == s;
    ChainCost(b, hc, t, st, p);
  }

  /** The path rebuilt when the target is popped is a route and, when hazards cost at
      least one, a cheapest one. */
  lemma FoundRoute(b: Board, hc: HazardCost, s: Pos, t: Pos, st: SearchState, rank: map<Pos, nat>, p: seq<Pos>)
    requires Linked(b, hc, s, t, st, rank) && Frontier(b, hc, t, st) && IsMin(t, st, t)
    requires PositiveCosts(hc) ==> Settled(b, hc, s, t, st)
    requires |p| >= 1 && p[0] == t && p[|p| - 1] !in st.cameFrom
    requires forall i :: 0 <= i < |p| - 1 ==> p[i] in st.cameFrom && p[i + 1] == st.cameFrom[p[i]]
    ensures IsRoute(b, s, t, p)
    ensures s == t ==> p == [t]
    ensures PositiveCosts(hc) ==> Cheapest(b, hc, s, t, p)
  {
    if s == t && |p| > 1 {
      assert false;
    }
    ChainRoute(b, hc, s, t, st, rank, p);
    if PositiveCosts(hc) {
      forall q | IsWalk(b, t, q, s, t)
        ensures Cost(b, hc, p) <= Cost(b, hc, q)
      {
        PopOptimal(b, hc, s, t, st, rank, t, q);
      }
    }
  }

  /** Before the first round only the start is discovered, open with g-score 0. */
  lemma InitKeeps(b: Board, hc: HazardCost, s: Pos, t: Pos)
    ensures Linked(b, hc, s, t, SearchState({s}, {}, map[], map[s := 0]), map[])
    ensures Frontier(b, hc, t, SearchState({s}, {}, map[], map[s := 0]))
    ensures Settled(b, hc, s, t, SearchState({s}, {}, map[], map[s := 0]))
  {
  }

  /** Closing a cell not yet closed shrinks the set of board cells left to close. */
  lemma CloseShrinks(b: Board, s: Pos, t: Pos, st: SearchState, current: Pos)
    requires Shape(b, s, t, st) && current in st.open
    ensures |Cells(b) + {s} - (st.closed + {current})| < |Cells(b) + {s} - st.closed|
  {
    var all := Cells(b) + {s};
    assert current in all - st.closed;
    assert all - (st.closed + {current}) == (all - st.closed) - {current};
  }

  // ---------------------------------------------------------------------------
  // The operations

  /** `path_find`: A* from `start` to `target`. The result lists the path backwards,
      target first and start last; it is `None` when either end is `None` or the open
      set runs dry. Neighbours off the board are not considered. */
  method PathFind(b: Board, start: Option<Pos>, target: Option<Pos>, hc: HazardCost) returns (r: Option<seq<Pos>>)
    ensures start.None? || target.None? ==> r.None?
    ensures r.Some? ==> start.Some? && target.Some? && IsRoute(b, start.value, target.value, r.value)
    ensures start.Some? && start == target ==> r == Some([start.value])
    ensures r.Some? && PositiveCosts(hc) ==> Cheapest(b, hc, start.value, target.value, r.value)
    ensures start.Some? && target.Some? ==> (r.None? <==> !Reachable(b, start.value, target.value))
  {
    if start.None? || target.None? {
      return None;
    }
    var s, t := start.value, target.value;
    var st := SearchState({s}, {}, map[], map[s := 0]);
    ghost var rank: map<Pos, nat> := map[];
    InitKeeps(b, hc, s, t);
    while st.open != {}
      invariant Linked(b, hc, s, t, st, rank) && Frontier(b, hc, t, st)
      invariant PositiveCosts(hc) ==> Settled(b, hc, s, t, st)
      decreases |Cells(b) + {s} - st.closed|
    {
      var current := PickMin(st.open, st.g, t);
      if current == t {
        ghost var order := RankedAcyclic(st, rank);
        var path := Reconstruct(st.cameFrom, t, order);
        FoundRoute(b, hc, s, t, st, rank, path);
        return Some(path);
      }
      StepKeeps(b, hc, s, t, st, rank, current);
      CloseShrinks(b, s, t, st, current);
      rank := rank[current := |st.closed|];
      st := Expand(b, hc, t, Close(st, current), current);
    }
    assert s != t by {
      assert s in st.closed;
    }
    Exhausted(b, hc, s, t, st, rank);
    return None;
  }

  /** What `path_find_to` returns: stay put, or one step in a direction. */
  datatype Step = Stay | Go(dir: Dir)

  /** `path_find_to`: the first move of the path `path_find` returns, `Stay` for a
      one-cell path, `None` when there is no path. */
  method PathFindTo(b: Board, start: Option<Pos>, target: Option<Pos>, hc: HazardCost) returns (m: Option<Step>)
    ensures start.None? || target.None? ==> m.None?
    ensures m == Some(Stay) <==> start.Some? && start == target
    ensures m.Some? && m.value.Go? ==>
              && start.Some? && target.Some?
              && exists p :: FirstMoveOf(b, hc, start.value, target.value, p, m.value.dir)
    ensures start.Some? && target.Some? ==> (m.None? <==> !Reachable(b, start.value, target.value))
  {
    var path := PathFind(b, start, target, hc);
    if path.None? {
      return None;
    }
    var p := path.value;
    if |p| > 1 {
      var s := start.value;
      assert Adjacent(p[|p| - 1], p[|p| - 2]);
      var d := DirToward(s, p[|p| - 2]);
      assert FirstMoveOf(b, hc, s, target.value, p, d);
      return Some(Go(d));
    }
    return Some(Stay);
  }

  /** `p` is a route from `s` to `t` whose first step goes in direction `d`, and, when
      hazards cost at least one, no walk from `s` to `t` is cheaper. */
  ghost predicate FirstMoveOf(b: Board, hc: HazardCost, s: Pos, t: Pos, p: seq<Pos>, d: Dir) {
    && IsRoute(b, s, t, p)
    && |p| >= 2
    && p[|p| - 2] == Neighbor(s, d)
    && (PositiveCosts(hc) ==> Cheapest(b, hc, s, t, p))
  }
}
