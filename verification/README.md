# blitz2017 bot core in Dafny

This is a model of the decision core of a bot for the Blitz 2017 burger-delivery game.
Each turn the bot does four things:

1. It decodes the board from the flat string of two-character tile codes the server sends.
2. It indexes where fries, burgers, heroes, taverns, spikes and customers are.
3. It picks a target cell. This is the customer that orders the least, or, if the hero does not carry enough, the nearest cell of the missing resource.
4. It runs an A* search from the hero's cell to that target.

The model follows `game.py` and `bot.py`:

- `results.dfy`: the `Option` and `Result` wrappers.
- `tiles.dfy` (module `Tiles`): the tile variants and the decoding table for one code.
- `grid.dfy` (module `Grid`):
  - positions, the AIM direction table and board decoding;
  - the cell queries `passable`, `hazard` and `to`.
- `search.dfy` (module `Search`):
  - `path_find`, with the heuristic, the cost function and path reconstruction;
  - `path_find_to`.
  - The proof that the returned path is a route, that it is a cheapest one, and that `None` means no route exists. It runs through the loop invariants of the search: bookkeeping, frontier coverage and settled cells.
- `world.dfy` (module `World`): the hero and customer records and the location indices `Game.__init__` builds.
- `bot.py` is modelled in `bot.dfy` (module `Bot`): `easiest_customer`, `sufficient_resources_for`, `get_nearest_needed_resource_position`, `get_target` and `move`.

Some source behaviour is kept as written:

- An unrecognised code decodes to `Tiles.Unknown`, which stands for Python's `None`, without an error.
- Fries, burger and customer tiles store 0 for `-` and 1 for any other second character.
- Every value stored in the fries, burger and customer indices is 1.
- `to` clamps to `size`.
- `Bot.move` returns a path.

The last two are also listed under Findings.

Two more facts about the code:

- The length of the tile string is never checked against `2*size*size`. A string of another length decodes into ragged or missing rows. `Grid.ParseBoardLayout` states the layout for strings of the expected length.
- There is no fallback move. When target selection or decoding fails, the source raises. The model states those cases as `Err` values, or as preconditions where the source raises.

## Model

| member | source | states |
|---|---|---|
| Tiles.DecodeTile | game.py:72-88 | Decoding fails exactly on an empty code, a one-character F/B/@/C code, or `@` followed by a non-digit. `"  "`, `"##"`, `"[]"` and `"^^"` give air, wall, tavern and spike. `F`, `B` and `C` followed by any character give the owner flag of that character: 0 for `-`, 1 otherwise. `@` followed by a digit gives that digit as hero id. Any other code gives `Unknown` (the source's `None`), not an error. |
| Tiles.EncodeTile | game.py:22-38 | Every tile the decoder can produce has a two-character code that decodes back to it. So F/B/C tiles are exactly owner flag 0 for `-` and 1 otherwise, and hero tiles are the digit's value. |
| Grid.Aim | game.py:16-19 | The AIM table: North is (-1, 0), East (0, 1), South (1, 0) and West (0, -1). Its contract is Grid.NeighborsAreAdjacent. |
| Grid.NeighborsAreAdjacent | game.py:16-19 | The four AIM vectors reach exactly the orthogonally adjacent cells, each cell by a single direction. |
| Grid.DirToward | game.py:136-137 | For adjacent cells, the AIM key found by scanning the table is the one whose vector leads from the first cell to the second. |
| Grid.Chunks | game.py:91-92 | Slicing into steps of `k` yields non-empty pieces of at most `k` elements. |
| Grid.ChunksFlatten | game.py:91-92 | The slices glued back together give the original sequence. |
| Grid.ChunksCount | game.py:91-92 | `m*k` elements make exactly `m` slices. |
| Grid.ChunkAt | game.py:91-92 | Slice `i` is the segment starting at offset `i*k`. |
| Grid.DecodeRow | game.py:94 | A row decodes iff every code in it decodes, and tile `i` is the decoding of code `i`. |
| Grid.DecodeRows | game.py:94 | The board decodes iff every row decodes, and row `i` is the decoding of row `i`'s codes. |
| Grid.ParseBoard | game.py:90-98 | Size 0 raises, as a zero `range` step. A negative size gives no rows. Otherwise the announced size is kept. |
| Grid.RowsLayout | game.py:90-94 | For a `2*size*size` string, chunking gives `size` rows of `size` codes, and code (r, c) is the pair at offset `2*(r*size+c)`. |
| Grid.ParseBoardLayout | game.py:90-98 | For a `2*size*size` string, parsing succeeds iff every cell's code decodes. The result is then a `size`x`size` board whose tile (r, c) decodes characters `2*(r*size+c)` and `2*(r*size+c)+1`. |
| Grid.Passable | game.py:100-104 | A cell is passable iff its tile is air, a spike or undecoded. Walls, taverns, customers, fries, burgers and heroes block. |
| Grid.Hazard | game.py:106-110 | A cell is a hazard iff it holds a spike, and every hazard is passable. |
| Grid.To | game.py:113-128 | For a board size of at least 0, each coordinate of the result is the neighbour's coordinate when that lies in [0, size], 0 when it is negative, and `size` when it is above `size`. |
| Grid.ToLeavesBoard | game.py:113-128 | On a well-formed 1x1 board, `to` moves from the only cell to row 1, which is off the board. |
| Grid.ToWithin | game.py:113-128 | Clamping to `size - 1` never leaves a well-formed board and equals the neighbour whenever the neighbour is on the board. |
| Search.StepCost | game.py:150-157 | Entering a cell costs at least 1 whenever every hazard costs at least 1. |
| Search.IsqrtFrom | game.py:148 | Integer square root: the largest `r` with `r*r <= n`. |
| Search.Heuristic | game.py:143-148 | The heuristic is the floor of the Euclidean distance to the target. |
| Search.HeuristicStep | game.py:143-148 | The heuristic drops by at most 1 per step, so it is consistent with unit steps. |
| Search.CostSplit | game.py:150-157 | The cost of a backwards walk is the cost of its prefix plus the cost of the suffix from any index. |
| Search.UnitCost | game.py:150-157 | Without a hazard cost every step costs 1, so a walk costs its number of steps. |
| Search.HeuristicAlongWalk | game.py:143-157 | Along a walk with costs of at least 1, a cell's heuristic exceeds a later cell's by no more than the cost paid between them. |
| Search.Relax | game.py:186-198 | Relaxing one neighbour never changes the closed set, never forgets a g-score, and keeps the open and closed cells exactly those with a g-score. |
| Search.RelaxCases | game.py:187-197 | Relaxing a neighbour leaves the state alone, or gives an enterable, not-closed neighbour the predecessor `current` and a g-score strictly better than any it had. |
| Search.RelaxKeeps | game.py:186-198 | Relaxing a neighbour of a closed cell keeps the bookkeeping invariant (shape, predecessor links, closing ranks). |
| Search.RelaxShape | game.py:187-197 | A relaxation keeps the open and closed sets disjoint, the g-score and predecessor domains in step with them, and the target not closed. |
| Search.RelaxLinks | game.py:187-197 | After a relaxation every discovered cell but the start still has a closed, adjacent predecessor and a g-score one step cost above it. |
| Search.RelaxRanked | game.py:187-197 | A relaxation keeps every closed cell's predecessor ranked before it. |
| Search.RelaxImproves | game.py:186-198 | Relaxing only adds open cells and lowers open g-scores, and leaves the neighbour covered: closed, blocked, or open with a g-score no worse than through `current`. |
| Search.UpdateKeeps | game.py:191-197 | Recording a strictly better predecessor for a not-closed cell keeps the bookkeeping invariant. |
| Search.RankedAfterUpdate | game.py:196 | Re-pointing a not-closed cell keeps every closed cell's predecessor closed earlier. |
| Search.ShapeAfterUpdate | game.py:191-197 | Adding a board cell to the open set keeps open, closed, g-score and predecessor domains in agreement. |
| Search.LinksAfterUpdate | game.py:196-197 | After the update every discovered cell's g-score is its predecessor's plus the cost of entering it. |
| Search.RelaxAll | game.py:186 | The neighbour loop keeps the closed set and the discovered-cells invariant of a single relaxation. |
| Search.Expand | game.py:186-198 | Expanding a cell relaxes its four AIM neighbours. Its contracts are Search.RelaxAllLinked, Search.ExpandCovers and Search.ExpandFrontier. |
| Search.AdjacentIsNeighbor | game.py:186 | The neighbour loop visits every cell adjacent to `current`. |
| Search.RelaxAllLinked | game.py:186-198 | The whole neighbour loop keeps the bookkeeping invariant. |
| Search.RelaxAllImproves | game.py:186-198 | The whole neighbour loop only improves the state and leaves every visited neighbour covered. |
| Search.ExpandCovers | game.py:186-198 | After expanding a cell, every adjacent cell is covered. |
| Search.ExpandFrontier | game.py:179-198 | After expanding, every closed cell has all its neighbours covered. |
| Search.Close | game.py:184-185 | The chosen cell moves from the open set to the closed set. Its contracts are Search.CloseLinked, Search.CloseSettled and Search.CloseFrontier. |
| Search.CloseLinked | game.py:184-185 | Moving an open cell other than the target to the closed set, ranked last, keeps the bookkeeping invariant. |
| Search.CloseShape | game.py:184-185 | Closing an open non-target cell keeps open and closed disjoint and covering the discovered cells. |
| Search.CloseLinks | game.py:185 | Closing a cell keeps every predecessor closed. |
| Search.CloseRanked | game.py:185 | Closing a cell keeps predecessors ranked before their successors. |
| Search.CloseSettled | game.py:180-185 | With costs of at least 1, closing the open cell of least `g + h` keeps every closed g-score optimal over all walks. |
| Search.CloseFrontier | game.py:184-185 | Cells closed before `current` keep their neighbours covered. |
| Search.StepKeeps | game.py:179-198 | One round of the main loop keeps every invariant and adds exactly `current` to the closed set. |
| Search.FrontierOnWalk | game.py:179-198 | Every walk from the start to a not-closed cell passes an open cell whose g-score is at most the cost of the walk up to it. |
| Search.PopOptimal | game.py:180 | With costs of at least 1, the open cell of least `g + h` has a g-score no more than any walk to it. |
| Search.OpenOnWalk | game.py:179-198 | Whatever the costs, every walk from the start to a cell that is not closed passes through an open cell. |
| Search.Exhausted | game.py:179-200 | Whatever the costs, when the open set runs dry, start and target differ and no walk leads from start to target. |
| Search.PickMin | game.py:180 | The chosen cell is open and has the least `g + heuristic` of the open set. |
| Search.Reconstruct | game.py:159-164 | The path starts at `current`, follows `came_from` link by link, and stops at a cell without a predecessor. |
| Search.RankedAcyclic | game.py:159-164 | Closing order strictly decreases along `came_from` links, so reconstruction terminates. |
| Search.ChainCost | game.py:190-197 | The cost along `came_from` links equals the difference of the two ends' g-scores. |
| Search.ChainRoute | game.py:159-182 | The path rebuilt from the target ends at the start, steps between adjacent cells, passes only passable cells, and costs g(target). |
| Search.FoundRoute | game.py:181-182 | When the target is popped, the rebuilt path is a route, is `[target]` when start is target, and is a cheapest walk when costs are at least 1. |
| Search.InitKeeps | game.py:169-177 | The initial state (only the start open, at g-score 0) satisfies every invariant. |
| Search.CloseShrinks | game.py:179-185 | Each round closes a new board cell, so the loop terminates. |
| Search.PathFind | game.py:141-200 | The result is `None` when either end is `None`, and `[start]` when start equals target. Otherwise a returned path runs from target back to start through passable cells. `None` is returned iff no walk exists, whatever the costs. With costs of at least 1 a returned path is a cheapest walk. |
| Search.PathFindTo | game.py:130-139 | `None` exactly when `path_find` finds nothing, `Stay` exactly when start equals target, otherwise the AIM direction of the first step of a route from start to target; when every hazard costs at least 1, that route is a cheapest one. |
| World.Hero | game.py:203-210 | The hero record: name, position `(x, y)`, life, calories, fries and burger counts. |
| World.Customer | game.py:213-218 | The customer record: id, burgers and fries still ordered, orders fulfilled. |
| World.FlagStep | game.py:57-60 | Scanning one more cell keeps a fries or burger index equal to the scanned cells of that kind, each with value 1. |
| World.HeroStep | game.py:61-62 | Scanning one more cell keeps the hero index equal to the scanned hero cells, each mapped to its tile's id. |
| World.SetStep | game.py:63-66 | Scanning one more cell keeps the tavern or spike set equal to the scanned cells of that tile. |
| World.Record | game.py:56-68 | Filing one scanned cell in the index of its kind. Its contract is World.RecordStep. |
| World.RecordStep | game.py:56-68 | Filing one cell extends all six indices from the cells before it to the cells up to it. |
| World.RowDone | game.py:54-55 | Finishing a row moves the scan to the start of the next row. |
| World.ScanStart | game.py:47-52 | The empty indices describe the empty scanned region. |
| World.ScanDone | game.py:54-55 | After the last row the scanned region is the whole board. |
| World.BuildIndices | game.py:47-68 | Each index holds exactly the board cells of its kind. Fries, burger and customer cells map to 1 and hero cells map to the hero id. |
| World.NewGame | game.py:42-68 | A game is built iff the board decodes, with the same decoding error otherwise. The board is the decoded one, the records are passed through, and the indices describe the board. |
| Bot.Difficulty | bot.py:23-24 | A customer's difficulty is the number of fries plus the number of burgers it orders. |
| Bot.Easiest | bot.py:20-26 | The chosen customer has the least fries+burger demand, and every earlier customer demands strictly more (stable sort). |
| Bot.Sufficient | bot.py:39-42 | The hero carries at least the fries and at least the burgers the customer orders. |
| Bot.Distance | bot.py:47-48 | The Manhattan distance from the hero's `(x, y)` to a cell. |
| Bot.Needed | bot.py:50-54 | The candidate cells are the fries cells while the hero has fewer fries than ordered, and the burger cells otherwise. |
| Bot.EasiestUnique | bot.py:20-26 | Least demand with earliest position on ties determines the customer uniquely. |
| Bot.Nearest | bot.py:47-54 | The chosen cell belongs to the candidates and has the least Manhattan distance to the hero. |
| Bot.NearestNeeded | bot.py:44-57 | The result is a fries cell when fries are short, a burger cell otherwise, and the nearest such cell. |
| Bot.GetTarget | bot.py:11-18 | The target is the customer's position when resources suffice. Otherwise it is the nearest needed-resource cell: fries while fries are short, burgers only when burgers are short. |
| Bot.Move | bot.py:5-9 | `move` returns the `path_find` result from the hero's cell to the target. The returned path's first cell is the target, a cell `get_target` may choose, and the path is a cheapest route from the hero's cell to it. It is `None` iff there is no target or the target cannot be reached. When hero and target differ it is a list of at least two cells. |
| Bot.MoveYieldsCells | bot.py:5-9 | On the game decoded from the 2x2 board `"  F-    "` (an unowned fries cell at (0, 1), air elsewhere), with the hero at (0, 0) holding no fries and one customer ordering one portion of fries, `move` returns the list of cells `[(0, 1), (0, 0)]`. The target comes from the nearest-resource branch of `get_target`, so no customer position is looked up. |
| Bot.MoveDirection | bot.py:5-9 | The intended `move`: `Stay` iff the hero stands on the target. Otherwise it is the first direction of a cheapest route from the hero's cell to the target, a cell `get_target` may choose. It is `None` iff there is no target or the target cannot be reached. |

## Left out

- client.py is not part of this model. It holds the HTTP session, the turn loop and argument parsing, which are I/O.
- The `print` calls in `get_nearest_needed_resource_position` are left out. They are output only.
- Bot.GetTarget: `find_customer_position` is the parameter `locate`, with no contract. The source version passes a `Customer` where an id is expected and calls `.index` on a list of tiles, so its behaviour is not modelled.
- JSON access is left out. `Hero`, `Customer` and the board arrive as typed records. Hero `pos` is split into `x` (row) and `y` (column).
- Tiles.DecodeTile: hero ids accept the ASCII digits `0`-`9` only. Python 2's `int` on a unicode string also accepts other Unicode decimal digits, such as `'\u0663'` for 3. The model reports those as `BadHeroId`.
- Search.Heuristic: `math.floor(math.sqrt(...))` is integer square root. The floating-point rounding of very large distances is not modelled.
- Search.PathFind: the `sys.maxint` defaults of `g_score` and `f_score` are never read for undiscovered cells, so only discovered cells carry a g-score. `f_score` is not stored, since it always equals `g + heuristic` and is recomputed when a cell is chosen.
- Search.PathFind: neighbours off the board are skipped, the target included. In the source a negative index wraps around to the other side of the board and an index of `size` raises. An off-board target next to a closed cell would be added to the open set by the source.
- Grid.Passable: requires the cell to be on the board, for the same reason. The source wraps negative indices and raises past the end.
- Search.PathFind: optimality is stated only when every hazard costs at least 1. Without that the heuristic is not consistent and a returned path need not be cheapest. Completeness (`None` iff no walk) holds for any costs and is stated without that condition.
- Search.PickMin: ties between cells of equal `g + heuristic` are broken by set order in the source. The model allows any minimal cell. Bot.Nearest leaves ties among equally near cells open for the same reason.
- Search.StepCost: a numeric `hazard_cost` is `int(hazard_cost)`, taken as an integer. Truncation of a non-integer argument is not modelled.
- Search.PathFindTo: the direction names `'North'`, `'East'`, `'South'`, `'West'` and `'Stay'` are the datatype `Step`. The `next(...)` over AIM cannot fail on a path of adjacent cells.
- Grid.ParseBoard: a string whose length is not `2*size*size` is decoded as the source does, into ragged or missing rows, and the queries take ragged rows as they come. Grid.ParseBoardLayout states the layout only for the expected length.
- Grid.ToLeavesBoard and Bot.MoveYieldsCells are fixed witnesses, not statements about all inputs.

## Findings

| source | as written | input that shows it | evidently intended | confidence | as-written member | corrected member |
|---|---|---|---|---|---|---|
| game.py:120-126 | `to` clamps each coordinate to `size`, one past the last row and column. | A 1x1 board: from (0, 0), South gives (1, 0), which `tiles` cannot index. | Clamp to `size - 1`, so the result stays on the board. | not executed | Grid.To (witness Grid.ToLeavesBoard) | Grid.ToWithin |
| bot.py:5-9 | `move` returns the reversed path from `path_find`, a list of cells. The client's turn loop posts whatever a bot's `move` returns as the `dir` field (client.py:52, 104, 110), which takes `Stay`, `North`, `East`, `South` or `West`. | The 2x2 board `"  F-    "` with an unowned fries cell at (0, 1), the hero at (0, 0) holding no fries, and one customer ordering one portion of fries: `move` yields `[(0, 1), (0, 0)]`. | Return the first direction of that path, as `path_find_to` computes it. | not executed | Bot.Move (witness Bot.MoveYieldsCells) | Bot.MoveDirection |
