/** The tile vocabulary of the board and the two-character codes it is serialised with. */
module Tiles {
  import opened Results

  /** The content of one board cell. `Unknown` stands for the `None` the decoder
      yields for a code it does not recognise; no error is raised for those. */
  datatype Tile =
    | Air
    | Wall
    | Tavern
    | Spike
    | FriesTile(heroId: int)
    | BurgerTile(heroId: int)
    | HeroTile(id: int)
    | CustomerTile(id: int)
    | Unknown

  /** What decoding can raise: a one-character F/B/@/C code (an index error on its
      second character), a hero code whose second character is not a digit (a value
      error in `int`), and a board size of zero (a zero `range` step). */
  datatype DecodeError = ShortCode | BadHeroId | ZeroSize

  predicate IsDigit(ch: char) {
    '0' <= ch <= '9'
  }

  function DigitValue(ch: char): (r: int)
    requires IsDigit(ch)
    ensures 0 <= r <= 9
  {
    ch as int - '0' as int
  }

  function DigitChar(n: int): (ch: char)
    requires 0 <= n <= 9
    ensures IsDigit(ch) && DigitValue(ch) == n
  {
    ('0' as int + n) as char
  }

  /** The owner/id stored by FriesTile, BurgerTile and CustomerTile. The source
      compares the character with itself, or with -1 when it is '-'; a character never
      equals -1, so the flag is 0 for '-' and 1 for every other character. The quirk is
      kept as written. */
  function OwnerFlag(ch: char): int {
    if ch == '-' then 0 else 1
  }

  /** Tiles the decoder can produce: owner flags are 0 or 1, hero ids one digit. */
  predicate Decodable(t: Tile) {
    match t
    case FriesTile(h) => h == 0 || h == 1
    case BurgerTile(h) => h == 0 || h == 1
    case CustomerTile(i) => i == 0 || i == 1
    case HeroTile(i) => 0 <= i <= 9
    case _ => true
  }

  /** Decoding of one two-character code, in the order the source tests it. */
  function DecodeTile(code: string): (r: Result<Tile, DecodeError>)
    ensures r.Ok? ==> Decodable(r.value)
    ensures r.Err? <==>
              || |code| == 0
              || (|code| == 1 && code[0] in "FB@C")
              || (|code| >= 2 && code[0] == '@' && !IsDigit(code[1]))
    ensures code == "  " ==> r == Ok(Air)
    ensures code == "##" ==> r == Ok(Wall)
    ensures code == "[]" ==> r == Ok(Tavern)
    ensures code == "^^" ==> r == Ok(Spike)
    ensures |code| >= 2 && code[0] == 'F' ==> r == Ok(FriesTile(OwnerFlag(code[1])))
    ensures |code| >= 2 && code[0] == 'B' ==> r == Ok(BurgerTile(OwnerFlag(code[1])))
    ensures |code| >= 2 && code[0] == 'C' ==> r == Ok(CustomerTile(OwnerFlag(code[1])))
    ensures |code| >= 2 && code[0] == '@' && IsDigit(code[1]) ==> r == Ok(HeroTile(DigitValue(code[1])))
    ensures |code| >= 1 && code[0] !in "FB@C" && code !in ["  ", "##", "[]", "^^"] ==> r == Ok(Unknown)
  {
    if code == "  " then Ok(Air)
    else if code == "##" then Ok(Wall)
    else if code == "[]" then Ok(Tavern)
    else if code == "^^" then Ok(Spike)
    else if |code| == 0 then Err(ShortCode)
    else if code[0] == 'F' then
      if |code| < 2 then Err(ShortCode) else Ok(FriesTile(OwnerFlag(code[1])))
    else if code[0] == 'B' then
      if |code| < 2 then Err(ShortCode) else Ok(BurgerTile(OwnerFlag(code[1])))
    else if code[0] == '@' then
      if |code| < 2 then Err(ShortCode)
      else if IsDigit(code[1]) then Ok(HeroTile(DigitValue(code[1])))
      else Err(BadHeroId)
    else if code[0] == 'C' then
      if |code| < 2 then Err(ShortCode) else Ok(CustomerTile(OwnerFlag(code[1])))
    else Ok(Unknown)
  }

  /** A two-character code for every decodable tile; `Unknown` is written "??". */
  function EncodeTile(t: Tile): (code: string)
    requires Decodable(t)
    ensures |code| == 2
    ensures DecodeTile(code) == Ok(t)
  {
    match t
    case Air => "  "
    case Wall => "##"
    case Tavern => "[]"
    case Spike => "^^"
    case FriesTile(h) => if h == 0 then "F-" else "F1"
    case BurgerTile(h) => if h == 0 then "B-" else "B1"
    case HeroTile(i) => ['@', DigitChar(i)]
    case CustomerTile(i) => if i == 0 then "C-" else "C1"
    case Unknown => "??"
  }
}
