/** Board geometry and the board decoder (game.py, class Board). */
module Grid {
  import opened Results
  import opened Tiles

  /** A cell as (row, column); rows grow to the South, columns to the East. */
  datatype Pos = Pos(row: int, col: int)

  /** The four keys of the AIM table. */
  datatype Dir = North | East | South | West

  /** The AIM table: the unit vector of each direction as (row delta, column delta). */
  function Aim(d: Dir): (int, int) {
    match d
    case North => (-1, 0)
    case East => (0, 1)
    case South => (1, 0)
    case West => (0, -1)
  }

  function Neighbor(p: Pos, d: Dir): Pos {
    Pos(p.row + Aim(d).0, p.col + Aim(d).1)
  }

  function Abs(n: int): nat {
    if n < 0 then -n else n
  }

  /** Two cells one orthogonal unit step apart. */
  predicate Adjacent(u: Pos, v: Pos) {
    Abs(u.row - v.row) + Abs(u.col - v.col) == 1
  }

  /** The neighbours the AIM table produces are exactly the adjacent cells, and each
      adjacent cell is reached by exactly one direction. */
  lemma NeighborsAreAdjacent(u: Pos, v: Pos)
    ensures Adjacent(u, v) <==> exists d :: Neighbor(u, d) == v
    ensures forall d, e :: Neighbor(u, d) == v && Neighbor(u, e) == v ==> d == e
  {
    if Adjacent(u, v) {
      var d := DirToward(u, v);
    }
  }

  /** The direction from `u` to an adjacent `v`, found by scanning the AIM table. */
  function DirToward(u: Pos, v: Pos): (d: Dir)
    requires Adjacent(u, v)
    ensures Neighbor(u, d) == v
  {
    if Neighbor(u, North) == v then North
    else if Neighbor(u, East) == v then East
    else if Neighbor(u, South) == v then South
    else West
  }

  /** A parsed board: `size` as announced, `tiles` as decoded (row-major). */
  datatype Board = Board(size: int, tiles: seq<seq<Tile>>)

  /** Every row holds `size` tiles and there are `size` rows. */
  predicate WellFormed(b: Board) {
    && b.size > 0
    && |b.tiles| == b.size
    && forall r :: 0 <= r < |b.tiles| ==> |b.tiles[r]| == b.size
  }

  /** `tiles[x][y]` can be indexed without wrapping or raising. */
  predicate InBounds(b: Board, p: Pos) {
    0 <= p.row < |b.tiles| && 0 <= p.col < |b.tiles[p.row]|
  }

  function TileAt(b: Board, p: Pos): Tile
    requires InBounds(b, p)
  {
    b.tiles[p.row][p.col]
  }

  /** All cells of the board. */
  function Cells(b: Board): (cells: set<Pos>)
    ensures forall p :: p in cells <==> InBounds(b, p)
  {
    var cells := set r, c | 0 <= r < |b.tiles| && 0 <= c < |b.tiles[r]| :: Pos(r, c);
    assert forall p :: InBounds(b, p) ==> Pos(p.row, p.col) in cells;
    cells
  }

  // ---------------------------------------------------------------------------
  // Decoding

  function Flatten<T>(ss: seq<seq<T>>): seq<T> {
    if |ss| == 0 then [] else ss[0] + Flatten(ss[1..])
  }

  /** `[s[i:i+k] for i in range(0, len(s), k)]`: consecutive slices of length `k`,
      the last one possibly shorter. */
  function Chunks<T>(s: seq<T>, k: nat): (r: seq<seq<T>>)
    requires k > 0
    ensures forall i :: 0 <= i < |r| ==> 1 <= |r[i]| <= k
    decreases |s|
  {
    if |s| == 0 then []
    else if |s| <= k then [s]
    else [s[..k]] + Chunks(s[k..], k)
  }

  /** Chunking loses nothing: gluing the chunks back together gives the input. */
  lemma {:induction false} ChunksFlatten<T>(s: seq<T>, k: nat)
    requires k > 0
    ensures Flatten(Chunks(s, k)) == s
    decreases |s|
  {
    if |s| > k {
      var rest := Chunks(s[k..], k);
      ChunksFlatten(s[k..], k);
      assert Chunks(s, k) == [s[..k]] + rest;
      assert ([s[..k]] + rest)[1..] == rest;
      assert s[..k] + s[k..] == s;
    } else if |s| > 0 {
      assert Flatten([s]) == s + Flatten([]);
    }
  }

  lemma {:induction false} ChunksCount<T>(s: seq<T>, k: nat, m: nat)
    requires k > 0 && |s| == m * k
    ensures |Chunks(s, k)| == m
    decreases m
  {
    if m == 0 {
    } else if m == 1 {
    } else {
      assert |s[k..]| == (m - 1) * k;
      ChunksCount(s[k..], k, m - 1);
    }
  }

  /** `i * k`, counted up one chunk at a time. */
  function Offset(i: nat, k: nat): nat {
    if i == 0 then 0 else Offset(i - 1, k) + k
  }

  lemma {:induction false} OffsetIsProduct(i: nat, k: nat)
    ensures Offset(i, k) == i * k
  {
    if i > 0 {
      OffsetIsProduct(i - 1, k);
      assert i * k == (i - 1) * k + k;
    }
  }

  /** Chunk `i` is the slice starting at offset `off == i * k`. */
  lemma {:induction false} ChunkAt<T>(s: seq<T>, k: nat, i: nat, off: nat)
    requires k > 0 && off + k <= |s| && off == Offset(i, k)
    ensures i < |Chunks(s, k)|
    ensures Chunks(s, k)[i] == s[off..off + k]
    decreases i
  {
    if i > 0 {
      var t := s[k..];
      assert Chunks(s, k) == [s[..k]] + Chunks(t, k);
      ChunkAt(t, k, i - 1, off - k);
      assert t[off - k..off] == s[off..off + k];
    }
  }

  /** Decodes one row of codes, stopping at the first code that raises. */
  function DecodeRow(codes: seq<string>): (r: Result<seq<Tile>, DecodeError>)
    ensures r.Ok? <==> forall i :: 0 <= i < |codes| ==> DecodeTile(codes[i]).Ok?
    ensures r.Ok? ==> |r.value| == |codes|
    ensures r.Ok? ==> forall i :: 0 <= i < |codes| ==> r.value[i] == DecodeTile(codes[i]).value
  {
    if |codes| == 0 then Ok([])
    else
      match DecodeTile(codes[0])
      case Err(e) => Err(e)
      case Ok(t) =>
        match DecodeRow(codes[1..])
        case Err(e) => Err(e)
        case Ok(ts) => Ok([t] + ts)
  }

  /** Decodes the rows in order, stopping at the first row that raises. */
  function DecodeRows(rows: seq<seq<string>>): (r: Result<seq<seq<Tile>>, DecodeError>)
    ensures r.Ok? <==> forall i :: 0 <= i < |rows| ==> DecodeRow(rows[i]).Ok?
    ensures r.Ok? ==> |r.value| == |rows|
    ensures r.Ok? ==> forall i :: 0 <= i < |rows| ==> r.value[i] == DecodeRow(rows[i]).value
  {
    if |rows| == 0 then Ok([])
    else
      match DecodeRow(rows[0])
      case Err(e) => Err(e)
      case Ok(t) =>
        match DecodeRows(rows[1..])
        case Err(e) => Err(e)
        case Ok(ts) => Ok([t] + ts)
  }

  /** `Board.__init__` with `__parseTiles`: split the string into two-character codes,
      group the codes into rows of `size`, decode each. A zero size is a zero `range`
      step and raises; a negative size gives an empty `range` and hence no rows. */
  function ParseBoard(size: int, s: string): (r: Result<Board, DecodeError>)
    ensures size == 0 ==> r == Err(ZeroSize)
    ensures size < 0 ==> r == Ok(Board(size, []))
    ensures r.Ok? ==> r.value.size == size
  {
    if size == 0 then Err(ZeroSize)
    else if size < 0 then Ok(Board(size, []))
    else
      match DecodeRows(Chunks(Chunks(s, 2), size))
      case Err(e) => Err(e)
      case Ok(tiles) => Ok(Board(size, tiles))
  }

  /** The code of cell (r, c) in a serialised board of the given size. */
  function CodeAt(s: string, size: int, r: int, c: int): string
    requires 0 <= r < size && 0 <= c < size && |s| == 2 * size * size
  {
    CellOffsetBound(size, r, c);
    s[2 * (r * size + c)..2 * (r * size + c) + 2]
  }

  lemma CellOffsetBound(size: int, r: int, c: int)
    requires 0 <= r < size && 0 <= c < size
    ensures 0 <= r * size + c < size * size
    ensures (r + 1) * size <= size * size
  {
    assert r * size <= (size - 1) * size;
    assert (r + 1) * size <= size * size;
  }

  /** The two-level chunking puts the code of cell (r, c) at row r, column c. */
  lemma RowsLayout(size: int, s: string, r: int, c: int)
    requires size > 0 && |s| == 2 * size * size
    requires 0 <= r < size && 0 <= c < size
    ensures |Chunks(Chunks(s, 2), size)| == size
    ensures |Chunks(Chunks(s, 2), size)[r]| == size
    ensures Chunks(Chunks(s, 2), size)[r][c] == CodeAt(s, size, r, c)
  {
    var n := size * size;
    var codes := Chunks(s, 2);
    ChunksCount(s, 2, n);
    ChunksCount(codes, size, size);
    CellOffsetBound(size, r, c);
    var rowStart := r * size;
    var k := rowStart + c;
    assert rowStart + size <= n by { assert (r + 1) * size == rowStart + size; }
    OffsetIsProduct(r, size);
    ChunkAt(codes, size, r, rowStart);
    assert Chunks(codes, size)[r][c] == codes[k];
    assert 2 * k + 2 <= |s|;
    OffsetIsProduct(k, 2);
    ChunkAt(s, 2, k, 2 * k);
  }

  /** For a string of `2 * size * size` characters, the parser either fails because some
      code raises, or yields `size` rows of `size` tiles where tile (r, c) is the decoding
      of the characters at offset `2 * (r * size + c)`. */
  lemma ParseBoardLayout(size: int, s: string)
    requires size > 0 && |s| == 2 * size * size
    ensures ParseBoard(size, s).Ok? <==>
              forall r, c :: 0 <= r < size && 0 <= c < size ==> DecodeTile(CodeAt(s, size, r, c)).Ok?
    ensures ParseBoard(size, s).Ok? ==>
              && WellFormed(ParseBoard(size, s).value)
              && forall r, c :: 0 <= r < size && 0 <= c < size ==>
                   ParseBoard(size, s).value.tiles[r][c] == DecodeTile(CodeAt(s, size, r, c)).value
  {
    var rows := Chunks(Chunks(s, 2), size);
    RowsLayout(size, s, 0, 0);
    forall r, c | 0 <= r < size && 0 <= c < size
      ensures |rows[r]| == size && rows[r][c] == CodeAt(s, size, r, c)
    {
      RowsLayout(size, s, r, c);
    }
    if DecodeRows(rows).Ok? {
      forall r, c | 0 <= r < size && 0 <= c < size
        ensures DecodeTile(CodeAt(s, size, r, c)).Ok?
      {
        assert DecodeRow(rows[r]).Ok?;
      }
    }
    if forall r, c :: 0 <= r < size && 0 <= c < size ==> DecodeTile(CodeAt(s, size, r, c)).Ok? {
      forall r | 0 <= r < size
        ensures DecodeRow(rows[r]).Ok?
      {
        forall c | 0 <= c < size
          ensures DecodeTile(rows[r][c]).Ok?
        {
        }
      }
    }
  }

  // ---------------------------------------------------------------------------
  // Cell queries

  /** The tiles one may walk over: air, spikes, and undecoded cells. */
  predicate Walkable(t: Tile) {
    t.Air? || t.Spike? || t.Unknown?
  }

  /** `passable`: the tile is none of wall, tavern, customer, fries, burger, hero. */
  function Passable(b: Board, loc: Pos): (r: bool)
    requires InBounds(b, loc)
    ensures r <==> Walkable(TileAt(b, loc))
  {
    var t := TileAt(b, loc);
    t != Wall && t != Tavern && !t.CustomerTile? && !t.FriesTile? && !t.BurgerTile? && !t.HeroTile?
  }

  /** `hazard`: the tile is a spike. A hazard is always passable; it is only costed. */
  function Hazard(b: Board, loc: Pos): (r: bool)
    requires InBounds(b, loc)
    ensures r ==> Passable(b, loc)
    ensures r <==> TileAt(b, loc) == Spike
  {
    TileAt(b, loc) == Spike
  }

  // ---------------------------------------------------------------------------
  // One-step moves

  /** Bound `n` below by 0, then above by `hi`, in the order the source tests. */
  function ClampTo(n: int, hi: int): int {
    var low := if n < 0 then 0 else n;
    if low > hi then hi else low
  }

  /** `to` as written: the neighbour in direction `d`, each coordinate clamped to
      [0, size]. The upper bound is `size`, one past the last row and column. */
  function To(b: Board, loc: Pos, d: Dir): (r: Pos)
    ensures b.size >= 0 ==> 0 <= r.row <= b.size && 0 <= r.col <= b.size
    ensures b.size >= 0 ==>
              var n := Neighbor(loc, d);
              && (n.row < 0 ==> r.row == 0)
              && (0 <= n.row <= b.size ==> r.row == n.row)
              && (n.row > b.size ==> r.row == b.size)
              && (n.col < 0 ==> r.col == 0)
              && (0 <= n.col <= b.size ==> r.col == n.col)
              && (n.col > b.size ==> r.col == b.size)
    ensures 0 <= Neighbor(loc, d).row <= b.size && 0 <= Neighbor(loc, d).col <= b.size ==>
              r == Neighbor(loc, d)
  {
    Pos(ClampTo(loc.row + Aim(d).0, b.size), ClampTo(loc.col + Aim(d).1, b.size))
  }

  /** `to` leaves the board: from the only cell of a 1x1 board, moving South lands on
      row 1, which `tiles` cannot index. */
  lemma ToLeavesBoard()
    ensures var b := Board(1, [[Air]]);
            && WellFormed(b) && InBounds(b, Pos(0, 0))
            && To(b, Pos(0, 0), South) == Pos(1, 0)
            && !InBounds(b, To(b, Pos(0, 0), South))
  {
  }

  /** `to` with the evidently intended bound `size - 1`: it never leaves a well-formed
      board, and it is the plain neighbour whenever that neighbour is on the board. */
  function ToWithin(b: Board, loc: Pos, d: Dir): (r: Pos)
    ensures WellFormed(b) ==> InBounds(b, r)
    ensures WellFormed(b) && InBounds(b, Neighbor(loc, d)) ==> r == Neighbor(loc, d)
  {
    Pos(ClampTo(loc.row + Aim(d).0, b.size - 1), ClampTo(loc.col + Aim(d).1, b.size - 1))
  }
}
