/**
 * The connect-four handlers of src/day_12.rs: one shared board word, read
 * and replaced by `board`, `reset`, `random-board` and `place`. Each atomic
 * load, store or `fetch_update` is one sequential update of `Game.word`.
 */
module Game {
  import opened Wrappers
  import Radix
  import opened ConnectFour

  /** The team a `place` request names, if it is one of the two players. */
  function TeamTile(team: string): (t: Option<Tile>)
    ensures t.Some? <==> team == "cookie" || team == "milk"
    ensures t.Some? ==> t.value != Empty
    ensures team == "cookie" ==> t == Some(Cookie)
    ensures team == "milk" ==> t == Some(Milk)
  {
    if team == "cookie" then Some(Cookie)
    else if team == "milk" then Some(Milk)
    else None
  }

  /** The 0-based column a `place` request names: a decimal `usize` in 1..4, less one. */
  function ParseColumn(column: string): (c: Option<nat>)
    ensures c.Some? ==> c.value < 4
    ensures c.Some? ==> var n := Radix.Parse(column, 10, U64_LIMIT); n.Some? && c.value == n.value - 1
    ensures c.Some? <==> (var n := Radix.Parse(column, 10, U64_LIMIT); n.Some? && 1 <= n.value <= 4)
  {
    match Radix.Parse(column, 10, U64_LIMIT)
    case Some(n) => if 1 <= n <= 4 then Some(n - 1) else None
    case None => None
  }

  /** The four accepted column tokens without a sign name columns 0..3; "0", "5" and "" are refused. */
  lemma ColumnTokens()
    ensures ParseColumn("1") == Some(0) && ParseColumn("2") == Some(1)
    ensures ParseColumn("3") == Some(2) && ParseColumn("4") == Some(3)
    ensures ParseColumn("0") == None && ParseColumn("5") == None && ParseColumn("") == None
  {
    assert Radix.DigitValue('1', 10) == Some(1);
    assert Radix.Value("1", 10) == 1 by {
      assert "1"[..0] == [];
    }
    assert Radix.Value("2", 10) == 2 by {
      assert "2"[..0] == [];
    }
    assert Radix.Value("3", 10) == 3 by {
      assert "3"[..0] == [];
    }
    assert Radix.Value("4", 10) == 4 by {
      assert "4"[..0] == [];
    }
    assert Radix.Value("0", 10) == 0 by {
      assert "0"[..0] == [];
    }
    assert Radix.Value("5", 10) == 5 by {
      assert "5"[..0] == [];
    }
  }

  /** What a `place` request answers and the board it leaves behind. */
  datatype Move = Move(status: nat, body: Option<string>, next: Board)

  /**
   * The decision logic of `place` on board `b`: 400 for a bad team or
   * column; 503 with the rendered board when the game is already over;
   * 503 without a body when the column is full; otherwise the tile drops,
   * and the answer is the new board's rendering with 503 when the move
   * ended the game in a draw and 200 otherwise.
   */
  function Placed(b: Board, team: string, column: string): (m: Move)
    ensures m.status == 200 || m.status == 400 || m.status == 503
    ensures m.status == 400 <==> TeamTile(team).None? || ParseColumn(column).None?
    ensures m.status == 400 ==> m.body == None
    ensures m.next != b ==> OutcomeOf(b) == InProgress && m.status != 400
    ensures m.status == 200 ==> m.next != b && OutcomeOf(m.next) != Draw && m.body == Some(Rendered(m.next))
  {
    match (TeamTile(team), ParseColumn(column))
    case (Some(t), Some(c)) =>
      if OutcomeOf(b) != InProgress then Move(503, Some(Rendered(b)), b)
      else
        (match Pushed(b, c, t)
         case None => Move(503, None, b)
         case Some(b') =>
           PushedMeaning(b, c, t);
           var row: nat :| DropsAt(b, c, t, row);
           assert b'[c + 4 * row] != b[c + 4 * row];
           Move(if OutcomeOf(b') == Draw then 503 else 200, Some(Rendered(b')), b'))
    case _ => Move(400, None, b)
  }

  /** A finished game (won or drawn) accepts no move: 503 with the board, and the board stays. */
  lemma PlaceOnFinishedGame(b: Board, team: string, column: string)
    requires TeamTile(team).Some? && ParseColumn(column).Some?
    requires OutcomeOf(b) != InProgress
    ensures Placed(b, team, column) == Move(503, Some(Rendered(b)), b)
  {
  }

  /** A move into a full column answers 503 without a body and leaves the board as it was. */
  lemma PlaceIntoFullColumn(b: Board, team: string, column: string)
    requires TeamTile(team).Some? && ParseColumn(column).Some?
    requires OutcomeOf(b) == InProgress
    requires forall r :: 0 <= r < 4 ==> b[ParseColumn(column).value + 4 * r] != Empty
    ensures Placed(b, team, column) == Move(503, None, b)
  {
    PushedMeaning(b, ParseColumn(column).value, TeamTile(team).value);
  }

  /**
   * A move into a column with room drops the team's tile; the answer
   * renders the new board and is 503 exactly when that board is a draw.
   */
  lemma PlaceDrops(b: Board, team: string, column: string)
    requires TeamTile(team).Some? && ParseColumn(column).Some?
    requires OutcomeOf(b) == InProgress
    requires exists r :: 0 <= r < 4 && b[ParseColumn(column).value + 4 * r] == Empty
    ensures var b' := Pushed(b, ParseColumn(column).value, TeamTile(team).value);
      && b'.Some?
      && Placed(b, team, column).next == b'.value
      && Placed(b, team, column).body == Some(Rendered(b'.value))
      && (Placed(b, team, column).status == 503 <==> OutcomeOf(b'.value) == Draw)
  {
    PushedMeaning(b, ParseColumn(column).value, TeamTile(team).value);
  }

  /** A move keeps the board settled: no tile ever floats above an Empty cell. */
  lemma PlaceKeepsSettled(b: Board, team: string, column: string)
    requires Settled(b)
    ensures Settled(Placed(b, team, column).next)
  {
    var m := Placed(b, team, column);
    if m.next != b {
      PushKeepsSettled(b, ParseColumn(column).value, TeamTile(team).value);
    }
  }

  /** The status `place` answers for a successful drop as written: it inspects `previous`, the board before the move. */
  function PlacedStatusAsWritten(previous: Board): (status: nat)
    ensures status == 503 <==> OutcomeOf(previous) == Draw
  {
    if OutcomeOf(previous) == Draw then 503 else 200
  }

  /** As written, every successful drop answers 200: the board before it was still in progress. */
  lemma AsWrittenDropAnswers200(b: Board, team: string, column: string)
    requires Placed(b, team, column).next != b
    ensures PlacedStatusAsWritten(b) == 200
  {
  }

  /** A board one Cookie short of a draw: only the top-left cell is Empty and no line is complete. */
  const ALMOST_DRAWN: seq<Tile> := [
    Empty,  Cookie, Milk,   Milk,
    Milk,   Milk,   Cookie, Cookie,
    Cookie, Cookie, Milk,   Milk,
    Milk,   Milk,   Cookie, Cookie]

  /** The same board with the top-left cell taken by a Cookie. */
  const DRAWN: seq<Tile> := ALMOST_DRAWN[0 := Cookie]

  lemma AlmostDrawnSums()
    ensures |ALMOST_DRAWN| == 16 && LineSums(ALMOST_DRAWN) == [1, 0, 0, 0, 1, 0, 0, 0, 1, 0]
  {
  }

  lemma AlmostDrawnInProgress()
    ensures |ALMOST_DRAWN| == 16 && OutcomeOf(ALMOST_DRAWN) == InProgress
  {
    AlmostDrawnSums();
    NoVerdictNoWin(LineSums(ALMOST_DRAWN));
    assert ALMOST_DRAWN[0] == Empty;
  }

  lemma DrawnSums()
    ensures |DRAWN| == 16 && LineSums(DRAWN) == [0, 0, 0, 0, 0, 0, 0, 0, 0, 0]
  {
  }

  lemma DrawnIsDraw()
    ensures |DRAWN| == 16 && OutcomeOf(DRAWN) == Draw
  {
    DrawnSums();
    NoVerdictNoWin(LineSums(DRAWN));
    assert Empty !in DRAWN;
  }

  /** The cookie dropped into the first column lands in its only empty cell, the top one. */
  lemma LastCellDrop()
    ensures |ALMOST_DRAWN| == 16 && Pushed(ALMOST_DRAWN, 0, Cookie) == Some(DRAWN)
  {
    LastEmptyIs(Column(ALMOST_DRAWN, 0), 0);
  }

  /**
   * The move that fills the last cell without completing a line: the
   * corrected check reports the draw with 503, the check as written
   * answers 200.
   */
  lemma LastCellDraw()
    ensures |ALMOST_DRAWN| == 16
    ensures Placed(ALMOST_DRAWN, "cookie", "1") == Move(503, Some(Rendered(DRAWN)), DRAWN)
    ensures PlacedStatusAsWritten(ALMOST_DRAWN) == 200
  {
    ColumnTokens();
    AlmostDrawnInProgress();
    DrawnIsDraw();
    LastCellDrop();
  }

  /** The board every fresh game and every `reset` starts from. */
  lemma EmptyWord()
    ensures Decodable(0, 16) && Unpacked(0) == EMPTY_BOARD && Settled(EMPTY_BOARD)
  {
    assert forall i :: 0 <= i < 16 ==> Field(0, i) == 0;
  }

  /** The board `random_board` builds from the generator's draws. */
  function CoinBoard(coins: seq<bool>): (b: Board)
    requires |coins| == 16
    ensures forall i :: 0 <= i < 16 ==> (b[i] == Cookie <==> coins[i]) && b[i] != Empty
  {
    seq(16, i requires 0 <= i < 16 => if coins[i] then Cookie else Milk)
  }

  /** The global `BOARD` word and the handlers that read and replace it. */
  class Game {
    var word: U64

    /** The word holds a decodable board in its low 32 bits, and no tile floats. */
    ghost predicate Valid()
      reads this
    {
      word < 0x1_0000_0000 && Decodable(word, 16) && Settled(Unpacked(word))
    }

    /** `AtomicU64::new(0)`: the empty board. */
    constructor()
      ensures Valid() && word == 0 && Unpacked(word) == EMPTY_BOARD
    {
      word := 0;
      EmptyWord();
    }

    /** `render_board`: decode the stored word and render it. */
    method Show() returns (s: string)
      requires Valid()
      ensures s == Rendered(Unpacked(word))
    {
      var tiles := Decode(word);
      s := Render(tiles);
    }

    /** `reset`: store the empty board and answer 200 with its rendering. */
    method Reset() returns (status: nat, body: string)
      modifies this
      ensures Valid() && word == 0 && Unpacked(word) == EMPTY_BOARD
      ensures status == 200 && body == Rendered(EMPTY_BOARD)
    {
      word := 0;
      EmptyWord();
      body := Show();
      status := 200;
    }

    /** `random_board`: store a board of random Cookie/Milk tiles and answer 200 with its rendering. */
    method RandomBoard(coins: seq<bool>) returns (status: nat, body: string)
      requires |coins| == 16
      modifies this
      ensures Valid() && Unpacked(word) == CoinBoard(coins) && word == Packed(CoinBoard(coins))
      ensures status == 200 && body == Rendered(CoinBoard(coins))
    {
      var tiles := NewRandom(coins);
      assert tiles[..] == CoinBoard(coins);
      word := Encode(tiles);
      UnpackPack(CoinBoard(coins));
      RandomBoardIsOver(CoinBoard(coins));
      body := Show();
      status := 200;
    }

    /**
     * `place`: validate the team and column, refuse a finished game, drop
     * the tile with one atomic update of the word, then answer from the
     * board the update stored.
     */
    method Place(team: string, column: string) returns (status: nat, body: Option<string>)
      requires Valid()
      modifies this
      ensures Valid()
      ensures var m := Placed(old(Unpacked(word)), team, column);
        status == m.status && body == m.body && word == Packed(m.next) && Unpacked(word) == m.next
    {
      ghost var b := Unpacked(word);
      PackUnpack(word);
      var t := TeamTile(team);
      if t.None? {
        return 400, None;
      }
      var c := ParseColumn(column);
      if c.None? {
        return 400, None;
      }
      var tiles := Decode(word);
      var state := CheckForWinner(tiles);
      if state != InProgress {
        var s := Show();
        return 503, Some(s);
      }
      // the `fetch_update` closure: decode, drop, encode; the word is stored only when the drop succeeds
      var next := Decode(word);
      var ok := PushItem(next, c.value, t.value);
      if ok {
        PushKeepsSettled(b, c.value, t.value);
        word := Encode(next);
        UnpackPack(next[..]);
      }
      var s := Show();
      if !ok {
        return 503, None;
      }
      // the outcome of the board just stored
      var stored := Decode(word);
      var outcome := CheckForWinner(stored);
      if outcome == Draw {
        return 503, Some(s);
      }
      return 200, Some(s);
    }
  }
}
