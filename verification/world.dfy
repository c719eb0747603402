/** The per-turn game snapshot (game.py, classes Game, Hero and Customer). */
module World {
  import opened Results
  import opened Tiles
  import opened Grid

  /** A hero as read from the game state. `pos` is the pair (`x`, `y`); `x` is used as
      the row and `y` as the column. */
  datatype Hero = Hero(
    name: string,
    x: int,
    y: int,
    life: int,
    calories: int,
    frenchFries: int,
    burger: int)

  /** A customer and what it still orders. */
  datatype Customer = Customer(id: int, burger: int, frenchFries: int, fulfilledOrders: int)

  /** The location indices `Game.__init__` builds by scanning the board. The source
      stores `int(v == v)` for fries, burger and customer cells, which is always 1. */
  datatype Indices = Indices(
    fries: map<Pos, int>,
    burgers: map<Pos, int>,
    heroes: map<Pos, int>,
    taverns: set<Pos>,
    spikes: set<Pos>,
    customers: map<Pos, int>)

  /** A decoded game: the board, the hero and customer lists, the player's own hero and
      the location indices. */
  datatype Game = Game(board: Board, heroes: seq<Hero>, customers: seq<Customer>, me: Hero, idx: Indices)

  const NoIndices := Indices(map[], map[], map[], {}, {}, map[])

  /** `m` holds exactly the cells for which `scanned` holds whose tile is of the kind,
      each with the value 1. */
  ghost predicate FlagIndex(b: Board, m: map<Pos, int>, scanned: Pos -> bool, kind: Tile -> bool) {
    && (forall p :: p in m <==> InBounds(b, p) && scanned(p) && kind(TileAt(b, p)))
    && (forall p :: p in m ==> m[p] == 1)
  }

  /** `s` holds exactly the cells for which `scanned` holds whose tile is `kind`. */
  ghost predicate SetIndex(b: Board, s: set<Pos>, scanned: Pos -> bool, kind: Tile) {
    forall p :: p in s <==> InBounds(b, p) && scanned(p) && TileAt(b, p) == kind
  }

  /** `m` maps exactly the scanned hero cells, each to the id of its hero tile. */
  ghost predicate HeroIndex(b: Board, m: map<Pos, int>, scanned: Pos -> bool) {
    && (forall p :: p in m <==> InBounds(b, p) && scanned(p) && TileAt(b, p).HeroTile?)
    && (forall p :: p in m && InBounds(b, p) ==> m[p] == TileAt(b, p).id)
  }

  /** The indices restricted to the cells for which `scanned` holds. */
  ghost predicate IndexesWhere(b: Board, idx: Indices, scanned: Pos -> bool) {
    && FlagIndex(b, idx.fries, scanned, (t: Tile) => t.FriesTile?)
    && FlagIndex(b, idx.burgers, scanned, (t: Tile) => t.BurgerTile?)
    && HeroIndex(b, idx.heroes, scanned)
    && SetIndex(b, idx.taverns, scanned, Tavern)
    && SetIndex(b, idx.spikes, scanned, Spike)
    && FlagIndex(b, idx.customers, scanned, (t: Tile) => t.CustomerTile?)
  }

  /** The indices of the whole board. */
  ghost predicate Indexes(b: Board, idx: Indices) {
    IndexesWhere(b, idx, (_: Pos) => true)
  }

  /** Cells before (r, c) in row-major scanning order. */
  ghost function Before(r: int, c: int): Pos -> bool {
    (p: Pos) => p.row < r || (p.row == r && p.col < c)
  }

  /** The body of the scan for one cell: file it in the index of its kind. The source
      tests Fries with a plain `if` and the others with an `elif` chain; no tile is of
      two kinds, so the chain behaves as one. Air and undecoded cells are not filed. */
  function Record(idx: Indices, p: Pos, t: Tile): Indices
  {
    match t
    case FriesTile(_) => idx.(fries := idx.fries[p := 1])
    case BurgerTile(_) => idx.(burgers := idx.burgers[p := 1])
    case HeroTile(id) => idx.(heroes := idx.heroes[p := id])
    case Tavern => idx.(taverns := idx.taverns + {p})
    case Spike => idx.(spikes := idx.spikes + {p})
    case CustomerTile(_) => idx.(customers := idx.customers[p := 1])
    case _ => idx
  }

  lemma FlagStep(b: Board, m: map<Pos, int>, r: int, c: int, kind: Tile -> bool)
    requires InBounds(b, Pos(r, c)) && FlagIndex(b, m, Before(r, c), kind)
    ensures kind(TileAt(b, Pos(r, c))) ==> FlagIndex(b, m[Pos(r, c) := 1], Before(r, c + 1), kind)
    ensures !kind(TileAt(b, Pos(r, c))) ==> FlagIndex(b, m, Before(r, c + 1), kind)
  {
    assert forall q :: Before(r, c + 1)(q) <==> Before(r, c)(q) || q == Pos(r, c);
  }

  lemma SetStep(b: Board, s: set<Pos>, r: int, c: int, kind: Tile)
    requires InBounds(b, Pos(r, c)) && SetIndex(b, s, Before(r, c), kind)
    ensures TileAt(b, Pos(r, c)) == kind ==> SetIndex(b, s + {Pos(r, c)}, Before(r, c + 1), kind)
    ensures TileAt(b, Pos(r, c)) != kind ==> SetIndex(b, s, Before(r, c + 1), kind)
  {
    assert forall q :: Before(r, c + 1)(q) <==> Before(r, c)(q) || q == Pos(r, c);
  }

  lemma HeroStep(b: Board, m: map<Pos, int>, r: int, c: int)
    requires InBounds(b, Pos(r, c)) && HeroIndex(b, m, Before(r, c))
    ensures TileAt(b, Pos(r, c)).HeroTile? ==> HeroIndex(b, m[Pos(r, c) := TileAt(b, Pos(r, c)).id], Before(r, c + 1))
    ensures !TileAt(b, Pos(r, c)).HeroTile? ==> HeroIndex(b, m, Before(r, c + 1))
  {
    assert forall q :: Before(r, c + 1)(q) <==> Before(r, c)(q) || q == Pos(r, c);
  }

  /** Filing cell (r, c) extends the indices of the cells before it to the cells up to
      and including it. */
  lemma RecordStep(b: Board, idx: Indices, r: int, c: int)
    requires InBounds(b, Pos(r, c)) && IndexesWhere(b, idx, Before(r, c))
    ensures IndexesWhere(b, Record(idx, Pos(r, c), TileAt(b, Pos(r, c))), Before(r, c + 1))
  {
    FlagStep(b, idx.fries, r, c, (t: Tile) => t.FriesTile?);
    FlagStep(b, idx.burgers, r, c, (t: Tile) => t.BurgerTile?);
    HeroStep(b, idx.heroes, r, c);
    SetStep(b, idx.taverns, r, c, Tavern);
    SetStep(b, idx.spikes, r, c, Spike);
    FlagStep(b, idx.customers, r, c, (t: Tile) => t.CustomerTile?);
  }

  /** Past the end of row r, the cells before (r, |row r|) are those before (r + 1, 0). */
  lemma RowDone(b: Board, idx: Indices, r: int)
    requires 0 <= r < |b.tiles| && IndexesWhere(b, idx, Before(r, |b.tiles[r]|))
    ensures IndexesWhere(b, idx, Before(r + 1, 0))
  {
    assert forall q :: InBounds(b, q) ==> (Before(r, |b.tiles[r]|)(q) <==> Before(r + 1, 0)(q));
  }

  /** Nothing is scanned before the first cell. */
  lemma ScanStart(b: Board)
    ensures IndexesWhere(b, NoIndices, Before(0, 0))
  {
  }

  /** After the last row every cell of the board has been scanned. */
  lemma ScanDone(b: Board, idx: Indices)
    requires IndexesWhere(b, idx, Before(|b.tiles|, 0))
    ensures Indexes(b, idx)
  {
    assert forall q :: InBounds(b, q) ==> Before(|b.tiles|, 0)(q);
  }

  /** The scan of `Game.__init__` over `tiles[row][col]` in row-major order. */
  method BuildIndices(b: Board) returns (idx: Indices)
    ensures Indexes(b, idx)
  {
    idx := NoIndices;
    ScanStart(b);
    var r := 0;
    while r < |b.tiles|
      invariant 0 <= r <= |b.tiles|
      invariant IndexesWhere(b, idx, Before(r, 0))
    {
      var c := 0;
      while c < |b.tiles[r]|
        invariant 0 <= c <= |b.tiles[r]|
        invariant IndexesWhere(b, idx, Before(r, c))
      {
        RecordStep(b, idx, r, c);
        idx := Record(idx, Pos(r, c), b.tiles[r][c]);
        c := c + 1;
      }
      RowDone(b, idx, r);
      r := r + 1;
    }
    ScanDone(b, idx);
  }

  /** `Game.__init__`: decode the board, then index it. The hero and customer records
      are taken as given. */
  method NewGame(size: int, tiles: string, heroes: seq<Hero>, customers: seq<Customer>, me: Hero)
    returns (r: Result<Game, DecodeError>)
    ensures r.Ok? <==> ParseBoard(size, tiles).Ok?
    ensures r.Err? ==> r.error == ParseBoard(size, tiles).error
    ensures r.Ok? ==>
              && r.value.board == ParseBoard(size, tiles).value
              && r.value.heroes == heroes && r.value.customers == customers && r.value.me == me
              && Indexes(r.value.board, r.value.idx)
  {
    match ParseBoard(size, tiles)
    case Err(e) =>
      return Err(e);
    case Ok(board) =>
      var idx := BuildIndices(board);
      return Ok(Game(board, heroes, customers, me, idx));
  }
}
