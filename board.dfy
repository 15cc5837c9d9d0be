/**
 * The 4x4 cookie-and-milk board of src/day_12.rs: its tiles, the packing of
 * the board into the low 32 bits of one `u64` word (two bits per tile), win
 * and draw detection by line sums, gravity drops and the emoji rendering.
 *
 * The board is row-major: tile `4 * row + col`. Methods work on the tile
 * array in place, as the source does; each is proved against a function on
 * the array's contents.
 */
module ConnectFour {
  import opened Wrappers
  import Radix

  /** A tile; `Value` is its `#[repr(i8)]` discriminant, `Code` its 2-bit code in the word. */
  datatype Tile = Empty | Cookie | Milk

  function Value(t: Tile): int
  {
    match t
    case Empty => 0
    case Cookie => -1
    case Milk => 1
  }

  function Code(t: Tile): nat
  {
    match t
    case Empty => 0
    case Cookie => 1
    case Milk => 2
  }

  /** The tile a 2-bit code stands for; code 3 stands for none (decode's `unreachable!`). */
  function TileFor(code: nat): (t: Tile)
    requires code < 3
    ensures Code(t) == code
  {
    if code == 0 then Empty else if code == 1 then Cookie else Milk
  }

  const EMPTY_BOARD: seq<Tile> :=
    [Empty, Empty, Empty, Empty, Empty, Empty, Empty, Empty,
     Empty, Empty, Empty, Empty, Empty, Empty, Empty, Empty]

  /** The 16 tiles of a board, row-major. */
  type Board = s: seq<Tile> | |s| == 16 witness EMPTY_BOARD

  // ---------------------------------------------------------------------
  // Packing: two bits per tile, tile i at bits 2i and 2i+1
  // ---------------------------------------------------------------------

  function Pow4(n: nat): (r: nat)
    ensures r > 0
  {
    Radix.Pow(4, n)
  }

  /** `(w >> (2 * i)) & 0b11`: the 2-bit field of tile `i`. */
  function Field(w: nat, i: nat): (r: nat)
    ensures r < 4
  {
    (w / Pow4(i)) % 4
  }

  /** Every one of the first `n` fields holds a tile code (no field is 3). */
  predicate Decodable(w: nat, n: nat)
  {
    forall i :: 0 <= i < n ==> Field(w, i) < 3
  }

  /** The board `decode` reads from `w`. */
  function Unpacked(w: nat): (b: Board)
    requires Decodable(w, 16)
  {
    seq(16, i requires 0 <= i < 16 => TileFor(Field(w, i)))
  }

  /** The word `encode` builds: tile 0 in the lowest two bits, base-4 little-endian. */
  function Packed(cells: seq<Tile>): (w: nat)
    ensures w < Pow4(|cells|)
  {
    if cells == [] then 0 else Code(cells[0]) + 4 * Packed(cells[1..])
  }

  /** 4^16 == 2^32: sixteen two-bit fields fill the low 32 bits. */
  lemma Pow4Sixteen()
    ensures Pow4(16) == 0x1_0000_0000
  {
    assert Pow4(4) == 256 by {
      assert Pow4(1) == 4;
      assert Pow4(2) == 16;
      assert Pow4(3) == 64;
    }
    assert Pow4(8) == 0x1_0000 by {
      assert Pow4(5) == 1024;
      assert Pow4(6) == 4096;
      assert Pow4(7) == 16384;
    }
    assert Pow4(12) == 0x100_0000 by {
      assert Pow4(9) == 0x4_0000;
      assert Pow4(10) == 0x10_0000;
      assert Pow4(11) == 0x40_0000;
    }
    assert Pow4(13) == 0x400_0000;
    assert Pow4(14) == 0x1000_0000;
    assert Pow4(15) == 0x4000_0000;
  }

  /** The field of tile `i + 1` of `w` is the field of tile `i` of `w >> 2`. */
  lemma FieldStep(w: nat, i: nat)
    ensures Field(w, i + 1) == Field(w / 4, i)
  {
    Radix.DivDiv(w, 4, Pow4(i));
  }

  /** Field `i` of a packed board holds the code of tile `i`. */
  lemma {:induction false} FieldOfPacked(cells: seq<Tile>, i: nat)
    requires i < |cells|
    ensures Field(Packed(cells), i) == Code(cells[i])
  {
    var w, rest := Packed(cells), Packed(cells[1..]);
    Radix.DivUnique(w, 4, rest, Code(cells[0]));
    if i > 0 {
      FieldStep(w, i - 1);
      FieldOfPacked(cells[1..], i - 1);
      assert Field(w, i) == Field(rest, i - 1);
      assert cells[1..][i - 1] == cells[i];
    } else {
      assert Field(w, 0) == w % 4;
    }
  }

  /** Appending a tile adds its code at the next two bits: the step of `encode`'s loop. */
  lemma {:induction false} PackedSnoc(cells: seq<Tile>, t: Tile)
    ensures Packed(cells + [t]) == Packed(cells) + Code(t) * Pow4(|cells|)
  {
    if cells != [] {
      assert (cells + [t])[1..] == cells[1..] + [t];
      PackedSnoc(cells[1..], t);
    }
  }

  /** The first `n` tiles `decode` reads from `w`. */
  function UnpackedPrefix(w: nat, n: nat): (s: seq<Tile>)
    requires Decodable(w, n)
    ensures |s| == n
  {
    seq(n, i requires 0 <= i < n => TileFor(Field(w, i)))
  }

  lemma {:induction false} PackedUnpackedPrefix(w: nat, n: nat)
    requires w < Pow4(n) && Decodable(w, n)
    ensures Packed(UnpackedPrefix(w, n)) == w
  {
    if n > 0 {
      var s := UnpackedPrefix(w, n);
      assert Decodable(w / 4, n - 1) by {
        forall i | 0 <= i < n - 1 ensures Field(w / 4, i) < 3 {
          FieldStep(w, i);
        }
      }
      assert s[1..] == UnpackedPrefix(w / 4, n - 1) by {
        forall i | 0 <= i < n - 1 ensures s[1..][i] == UnpackedPrefix(w / 4, n - 1)[i] {
          FieldStep(w, i);
        }
      }
      assert w / 4 < Pow4(n - 1);
      PackedUnpackedPrefix(w / 4, n - 1);
      assert Field(w, 0) == w % 4;
    }
  }

  /** decode(encode(b)) == b for every board. */
  lemma UnpackPack(b: Board)
    ensures Decodable(Packed(b), 16)
    ensures Unpacked(Packed(b)) == b
  {
    forall i | 0 <= i < 16 ensures Field(Packed(b), i) == Code(b[i]) {
      FieldOfPacked(b, i);
    }
  }

  /** encode(decode(w)) == w for every word whose upper 32 bits are zero and whose fields are all at most 2. */
  lemma PackUnpack(w: nat)
    requires w < 0x1_0000_0000 && Decodable(w, 16)
    ensures Packed(Unpacked(w)) == w
  {
    Pow4Sixteen();
    assert Unpacked(w) == UnpackedPrefix(w, 16);
    PackedUnpackedPrefix(w, 16);
  }

  /** `Board::decode`: fill the tile array from the 16 two-bit fields of `state`. */
  method Decode(state: U64) returns (tiles: array<Tile>)
    requires Decodable(state, 16)
    ensures fresh(tiles) && tiles.Length == 16
    ensures tiles[..] == Unpacked(state)
  {
    tiles := new Tile[16](_ => Empty);
    for i := 0 to 16
      invariant forall k :: 0 <= k < i ==> Code(tiles[k]) == Field(state, k)
    {
      var val := (state / Pow4(i)) % 4;
      tiles[i] := match val
        case 0 => Empty
        case 1 => Cookie
        case _ => Milk;
    }
  }

  /** `Board::encode`: OR each tile's code into the word at bits 2i, 2i+1. */
  method Encode(tiles: array<Tile>) returns (state: U64)
    requires tiles.Length == 16
    ensures state == Packed(tiles[..])
    ensures state < 0x1_0000_0000
  {
    var acc: nat := 0;
    for i := 0 to 16
      invariant acc == Packed(tiles[..i])
    {
      // bits 2i and up of acc are still zero, so `|=` adds the shifted code
      PackedSnoc(tiles[..i], tiles[i]);
      assert tiles[..i + 1] == tiles[..i] + [tiles[i]];
      acc := acc + Code(tiles[i]) * Pow4(i);
    }
    assert tiles[..16] == tiles[..];
    Pow4Sixteen();
    state := acc;
  }

  // ---------------------------------------------------------------------
  // Winning lines
  // ---------------------------------------------------------------------

  /** The game state `check_for_winner` reports: `Ok(None)`, `Ok(Some(t))`, `Err(())`. */
  datatype Outcome = InProgress | Won(winner: Tile) | Draw

  /**
   * Line `k` as tile indices, in the order `check_for_winner` tests the sums:
   * columns 0-3, rows 0-3, the main diagonal, the anti-diagonal.
   */
  function Line(k: nat): (l: seq<nat>)
    requires k < 10
    ensures |l| == 4 && forall j :: 0 <= j < 4 ==> l[j] < 16
  {
    if k < 4 then [k, k + 4, k + 8, k + 12]
    else if k < 8 then [4 * (k - 4), 4 * (k - 4) + 1, 4 * (k - 4) + 2, 4 * (k - 4) + 3]
    else if k == 8 then [0, 5, 10, 15]
    else [3, 6, 9, 12]
  }

  /** The sum of the signed tile values on line `k`. */
  function LineSum(b: Board, k: nat): int
    requires k < 10
  {
    var l := Line(k);
    Value(b[l[0]]) + Value(b[l[1]]) + Value(b[l[2]]) + Value(b[l[3]])
  }

  /** `check_value`: a sum of 4 is a Milk line, -4 a Cookie line. */
  function Verdict(sum: int): Option<Tile>
  {
    if sum == 4 then Some(Milk) else if sum == -4 then Some(Cookie) else None
  }

  /** The ten line sums in scan order. */
  function LineSums(b: Board): (s: seq<int>)
    ensures |s| == 10
  {
    seq(10, k requires 0 <= k < 10 => LineSum(b, k))
  }

  /** The verdict of the first sum in `sums` that is a win. */
  function FirstWin(sums: seq<int>): (r: Option<Tile>)
    ensures r.Some? ==> r.value != Empty
  {
    if sums == [] then None
    else if Verdict(sums[0]).Some? then Verdict(sums[0])
    else FirstWin(sums[1..])
  }

  /** What `check_for_winner` returns for `b`. */
  function OutcomeOf(b: Board): (r: Outcome)
    ensures r.Won? ==> r.winner != Empty
  {
    match FirstWin(LineSums(b))
    case Some(t) => Won(t)
    case None => if Empty in b then InProgress else Draw
  }

  /** Line `k` holds four tiles of `t`, and `t` is a player. */
  predicate Owns(b: Board, k: nat, t: Tile)
    requires k < 10
  {
    t != Empty && forall j :: 0 <= j < 4 ==> b[Line(k)[j]] == t
  }

  /** The sum test decides exactly the four-equal-tiles test: 4 iff all four are Milk, -4 iff all four are Cookie. */
  lemma VerdictIsOwnership(b: Board, k: nat)
    requires k < 10
    ensures Verdict(LineSum(b, k)) == Some(Milk) <==> Owns(b, k, Milk)
    ensures Verdict(LineSum(b, k)) == Some(Cookie) <==> Owns(b, k, Cookie)
    ensures Verdict(LineSum(b, k)) == None <==> (forall t :: !Owns(b, k, t))
  {
    var l := Line(k);
    var t0, t1, t2, t3 := b[l[0]], b[l[1]], b[l[2]], b[l[3]];
    assert LineSum(b, k) == 4 <==> t0 == Milk && t1 == Milk && t2 == Milk && t3 == Milk;
    assert LineSum(b, k) == -4 <==> t0 == Cookie && t1 == Cookie && t2 == Cookie && t3 == Cookie;
    assert Owns(b, k, Milk) <==> t0 == Milk && t1 == Milk && t2 == Milk && t3 == Milk;
    assert Owns(b, k, Cookie) <==> t0 == Cookie && t1 == Cookie && t2 == Cookie && t3 == Cookie;
    forall t ensures Owns(b, k, t) ==> t == Milk || t == Cookie {
    }
  }

  /** The first owned line from `k` on, by the equality test alone. */
  function FirstOwner(b: Board, k: nat): Option<Tile>
    requires k <= 10
    decreases 10 - k
  {
    if k == 10 then None
    else if Owns(b, k, b[Line(k)[0]]) then Some(b[Line(k)[0]])
    else FirstOwner(b, k + 1)
  }

  /**
   * The reference outcome: the owner of the first line (columns, rows,
   * diagonals) with four equal non-empty tiles; otherwise a draw when no tile
   * is Empty, else still in progress.
   */
  function OutcomeByLines(b: Board): Outcome
  {
    match FirstOwner(b, 0)
    case Some(t) => Won(t)
    case None => if Empty in b then InProgress else Draw
  }

  /** Only the line's first tile can own it. */
  lemma OwnerIsFirstTile(b: Board, k: nat)
    requires k < 10
    ensures forall t :: Owns(b, k, t) ==> t == b[Line(k)[0]]
  {
  }

  lemma {:induction false} FirstWinIsFirstOwner(b: Board, k: nat)
    requires k <= 10
    ensures FirstWin(LineSums(b)[k..]) == FirstOwner(b, k)
    decreases 10 - k
  {
    if k < 10 {
      assert LineSums(b)[k..][0] == LineSum(b, k);
      assert LineSums(b)[k..][1..] == LineSums(b)[k + 1..];
      VerdictIsOwnership(b, k);
      OwnerIsFirstTile(b, k);
      FirstWinIsFirstOwner(b, k + 1);
    }
  }

  /** Summing signed tile values decides the same outcome as comparing tiles. */
  lemma OutcomeBySums(b: Board)
    ensures OutcomeOf(b) == OutcomeByLines(b)
  {
    FirstWinIsFirstOwner(b, 0);
    assert LineSums(b)[0..] == LineSums(b);
  }

  lemma {:induction false} FirstOwnerSound(b: Board, k: nat)
    requires k <= 10
    ensures FirstOwner(b, k).Some? ==> exists j :: k <= j < 10 && Owns(b, j, FirstOwner(b, k).value)
    ensures FirstOwner(b, k).None? ==> forall j, t :: k <= j < 10 ==> !Owns(b, j, t)
    decreases 10 - k
  {
    if k < 10 {
      FirstOwnerSound(b, k + 1);
      OwnerIsFirstTile(b, k);
    }
  }

  /**
   * What the outcome means: a win names a player owning some line; a draw
   * means no line is owned and no tile is Empty; in progress means no line
   * is owned and some tile is Empty.
   */
  lemma OutcomeMeaning(b: Board)
    ensures OutcomeOf(b).Won? ==>
      (OutcomeOf(b).winner != Empty && exists k :: 0 <= k < 10 && Owns(b, k, OutcomeOf(b).winner))
    ensures OutcomeOf(b) == Draw <==> (forall k, t :: 0 <= k < 10 ==> !Owns(b, k, t)) && Empty !in b
    ensures OutcomeOf(b) == InProgress <==> (forall k, t :: 0 <= k < 10 ==> !Owns(b, k, t)) && Empty in b
  {
    OutcomeBySums(b);
    FirstOwnerSound(b, 0);
  }

  /** A board with no Empty tile is finished: won or drawn. */
  lemma FullBoardIsOver(b: Board)
    requires Empty !in b
    ensures OutcomeOf(b) != InProgress
  {
  }

  /** The sum of column `c` over its first `n` rows. */
  function ColumnSum(b: Board, c: nat, n: nat): int
    requires c < 4 && n <= 4
  {
    if n == 0 then 0 else ColumnSum(b, c, n - 1) + Value(b[4 * (n - 1) + c])
  }

  /** The sum of row `r`. */
  function RowSum(b: Board, r: nat): int
    requires r < 4
  {
    Value(b[4 * r]) + Value(b[4 * r + 1]) + Value(b[4 * r + 2]) + Value(b[4 * r + 3])
  }

  /** The sum of the main diagonal over its first `n` rows. */
  function DownSum(b: Board, n: nat): int
    requires n <= 4
  {
    if n == 0 then 0 else DownSum(b, n - 1) + Value(b[4 * (n - 1) + (n - 1)])
  }

  /** The sum of the anti-diagonal over its first `n` rows. */
  function UpSum(b: Board, n: nat): int
    requires n <= 4
  {
    if n == 0 then 0 else UpSum(b, n - 1) + Value(b[4 * (n - 1) + (3 - (n - 1))])
  }

  /** Once all four rows are in, the running sums are the ten line sums in scan order. */
  lemma AccumulatedLineSums(b: Board, cols: seq<int>, rows: seq<int>, down: int, up: int)
    requires |cols| == 4 && |rows| == 4
    requires cols[0] == ColumnSum(b, 0, 4) && cols[1] == ColumnSum(b, 1, 4)
    requires cols[2] == ColumnSum(b, 2, 4) && cols[3] == ColumnSum(b, 3, 4)
    requires forall k :: 0 <= k < 4 ==> rows[k] == RowSum(b, k)
    requires down == DownSum(b, 4) && up == UpSum(b, 4)
    ensures cols + rows + [down, up] == LineSums(b)
  {
    AccumulatedSums(b);
    var sums := cols + rows + [down, up];
    forall k | 0 <= k < 10 ensures sums[k] == LineSum(b, k) {
      if k < 4 {
        assert sums[k] == cols[k];
      } else if k < 8 {
        assert sums[k] == rows[k - 4];
      }
    }
  }

  /** Summed over all four rows, the running column and diagonal sums are the line sums. */
  lemma AccumulatedSums(b: Board)
    ensures forall c :: 0 <= c < 4 ==> ColumnSum(b, c, 4) == LineSum(b, c)
    ensures DownSum(b, 4) == LineSum(b, 8) && UpSum(b, 4) == LineSum(b, 9)
  {
    forall c | 0 <= c < 4 ensures ColumnSum(b, c, 4) == LineSum(b, c) {
      assert ColumnSum(b, c, 1) == Value(b[c]);
      assert ColumnSum(b, c, 2) == Value(b[c]) + Value(b[4 + c]);
      assert ColumnSum(b, c, 3) == Value(b[c]) + Value(b[4 + c]) + Value(b[8 + c]);
    }
    assert DownSum(b, 1) == Value(b[0]);
    assert DownSum(b, 2) == Value(b[0]) + Value(b[5]);
    assert DownSum(b, 3) == Value(b[0]) + Value(b[5]) + Value(b[10]);
    assert UpSum(b, 1) == Value(b[3]);
    assert UpSum(b, 2) == Value(b[3]) + Value(b[6]);
    assert UpSum(b, 3) == Value(b[3]) + Value(b[6]) + Value(b[9]);
  }

  /**
   * The first half of `check_for_winner`: add the board in row by row,
   * lane-wise into the column sums, into the row's own sum, and into both
   * diagonals; the result lists columns, rows, then the two diagonals.
   */
  method LineTotals(tiles: array<Tile>) returns (sums: seq<int>)
    requires tiles.Length == 16
    ensures sums == LineSums(tiles[..])
  {
    var b: Board := tiles[..];
    var cols: seq<int> := [0, 0, 0, 0];
    var rows: seq<int> := [0, 0, 0, 0];
    var down, up := 0, 0;
    var row := 0;
    while row < 4
      invariant row <= 4 && |cols| == 4 && |rows| == 4
      invariant cols[0] == ColumnSum(b, 0, row) && cols[1] == ColumnSum(b, 1, row)
      invariant cols[2] == ColumnSum(b, 2, row) && cols[3] == ColumnSum(b, 3, row)
      invariant forall k :: 0 <= k < row ==> rows[k] == RowSum(b, k)
      invariant forall k :: row <= k < 4 ==> rows[k] == 0
      invariant down == DownSum(b, row) && up == UpSum(b, row)
    {
      var line := tiles[4 * row .. 4 * row + 4];
      var v0, v1, v2, v3 := Value(line[0]), Value(line[1]), Value(line[2]), Value(line[3]);
      // lane-wise add of the row into the column sums
      cols := [cols[0] + v0, cols[1] + v1, cols[2] + v2, cols[3] + v3];
      rows := rows[row := rows[row] + (v0 + v1 + v2 + v3)];
      down := down + Value(line[row]);
      up := up + Value(line[3 - row]);
      row := row + 1;
    }
    AccumulatedLineSums(b, cols, rows, down, up);
    sums := cols + rows + [down, up];
  }

  /**
   * `check_for_winner`: the first line sum of 4 or -4 names the winner;
   * otherwise a board without Empty tiles is a draw.
   */
  method CheckForWinner(tiles: array<Tile>) returns (r: Outcome)
    requires tiles.Length == 16
    ensures r == OutcomeOf(tiles[..])
  {
    var sums := LineTotals(tiles);
    var v := FirstVerdict(sums);
    WinnerFromScan(tiles[..], sums, v);
    if v.Some? {
      return Won(v.value);
    }
    if Empty !in tiles[..] {
      return Draw;
    }
    return InProgress;
  }

  /** The first win among the sums, scanning in order. */
  method FirstVerdict(sums: seq<int>) returns (v: Option<Tile>)
    ensures v == FirstWin(sums)
  {
    var k := 0;
    while k < |sums|
      invariant k <= |sums|
      invariant FirstWin(sums) == FirstWin(sums[k..])
    {
      var w := Verdict(sums[k]);
      if w.Some? {
        return w;
      }
      k := k + 1;
    }
    return None;
  }

  lemma WinnerFromScan(b: Board, sums: seq<int>, v: Option<Tile>)
    requires sums == LineSums(b) && v == FirstWin(sums)
    ensures v.Some? ==> OutcomeOf(b) == Won(v.value)
    ensures v.None? ==> OutcomeOf(b) == (if Empty in b then InProgress else Draw)
  {
  }

  // ---------------------------------------------------------------------
  // Gravity
  // ---------------------------------------------------------------------

  /** `get_col`: the column's tiles from the top row (0) to the bottom row (3). */
  function Column(b: Board, c: nat): (col: seq<Tile>)
    requires c < 4
    ensures |col| == 4 && forall r :: 0 <= r < 4 ==> col[r] == b[c + 4 * r]
  {
    [b[c], b[c + 4], b[c + 8], b[c + 12]]
  }

  /** The highest index of an Empty tile in `col` (`.enumerate().rev().find(..)`). */
  function LastEmpty(col: seq<Tile>): (r: Option<nat>)
    ensures r.Some? ==> r.value < |col| && col[r.value] == Empty
    ensures r.Some? ==> forall j :: r.value < j < |col| ==> col[j] != Empty
    ensures r.None? <==> Empty !in col
  {
    if col == [] then None
    else if col[|col| - 1] == Empty then Some(|col| - 1)
    else
      assert col == col[..|col| - 1] + [col[|col| - 1]];
      LastEmpty(col[..|col| - 1])
  }

  lemma LastEmptyIs(col: seq<Tile>, k: nat)
    requires k < |col| && col[k] == Empty && forall j :: k < j < |col| ==> col[j] != Empty
    ensures LastEmpty(col) == Some(k)
  {
  }

  /** `push_item`: the board after dropping `t` into column `c`, or None when the column is full. */
  function Pushed(b: Board, c: nat, t: Tile): Option<Board>
    requires c < 4
  {
    match LastEmpty(Column(b, c))
    case None => None
    case Some(row) => Some(b[c + 4 * row := t])
  }

  /**
   * What a drop does: it fails exactly when column `c` has no Empty tile;
   * otherwise it writes `t` into the lowest Empty tile of the column (every
   * tile below it is taken) and changes no other tile.
   */
  lemma PushedMeaning(b: Board, c: nat, t: Tile)
    requires c < 4
    ensures Pushed(b, c, t).None? <==> forall r :: 0 <= r < 4 ==> b[c + 4 * r] != Empty
    ensures Pushed(b, c, t).Some? ==> exists row: nat :: DropsAt(b, c, t, row)
  {
    var col := Column(b, c);
    if LastEmpty(col).None? {
      forall r | 0 <= r < 4 ensures b[c + 4 * r] != Empty {
        assert col[r] == b[c + 4 * r];
      }
    } else {
      var row := LastEmpty(col).value;
      assert col[row] == Empty;
      forall r | row < r < 4 ensures b[c + 4 * r] != Empty {
        assert col[r] == b[c + 4 * r];
      }
      assert DropsAt(b, c, t, row);
    }
  }

  /**
   * Dropping `t` into column `c` lands in `row`: that tile was Empty, every
   * tile below it in the column is taken, it now holds `t`, and no other
   * tile changed.
   */
  predicate DropsAt(b: Board, c: nat, t: Tile, row: nat)
    requires c < 4
  {
    && row < 4
    && b[c + 4 * row] == Empty
    && (forall r :: row < r < 4 ==> b[c + 4 * r] != Empty)
    && Pushed(b, c, t).Some?
    && Pushed(b, c, t).value[c + 4 * row] == t
    && forall i :: 0 <= i < 16 && i != c + 4 * row ==> Pushed(b, c, t).value[i] == b[i]
  }

  /** `push_item`, writing the tile array in place. */
  method PushItem(tiles: array<Tile>, col: nat, item: Tile) returns (ok: bool)
    requires tiles.Length == 16 && col < 4
    modifies tiles
    ensures ok == Pushed(old(tiles[..]), col, item).Some?
    ensures ok ==> tiles[..] == Pushed(old(tiles[..]), col, item).value
    ensures !ok ==> tiles[..] == old(tiles[..])
  {
    var column := Column(tiles[..], col);
    var found := LastEmpty(column);
    if found.None? {
      return false;
    }
    tiles[col + found.value * 4] := item;
    return true;
  }

  /** No tile floats: every non-Empty tile above the bottom row stands on a non-Empty tile. */
  predicate Settled(b: Board)
  {
    forall i :: 0 <= i < 12 && b[i] != Empty ==> b[i + 4] != Empty
  }

  /** Dropping a player's tile keeps the board settled. */
  lemma PushKeepsSettled(b: Board, c: nat, t: Tile)
    requires c < 4 && t != Empty && Settled(b) && Pushed(b, c, t).Some?
    ensures Settled(Pushed(b, c, t).value)
  {
    PushedMeaning(b, c, t);
    var b' := Pushed(b, c, t).value;
    var row: nat :| DropsAt(b, c, t, row);
    var at := c + 4 * row;
    forall i | 0 <= i < 12 && b'[i] != Empty ensures b'[i + 4] != Empty {
      if i + 4 == at {
      } else if i == at {
        assert b[c + 4 * (row + 1)] != Empty;
      } else {
        assert b[i] != Empty;
      }
    }
  }

  /** Four drops into an empty column fill it from the bottom row up; a fifth is refused. */
  lemma FillColumn(b: Board, c: nat, t: Tile)
    requires c < 4 && t != Empty && forall r :: 0 <= r < 4 ==> b[c + 4 * r] == Empty
    ensures Pushed(b, c, t) == Some(b[c + 12 := t])
    ensures Pushed(b[c + 12 := t], c, t) == Some(b[c + 12 := t][c + 8 := t])
    ensures Pushed(b[c + 12 := t][c + 8 := t], c, t) == Some(b[c + 12 := t][c + 8 := t][c + 4 := t])
    ensures Pushed(b[c + 12 := t][c + 8 := t][c + 4 := t], c, t)
      == Some(b[c + 12 := t][c + 8 := t][c + 4 := t][c := t])
    ensures Pushed(b[c + 12 := t][c + 8 := t][c + 4 := t][c := t], c, t) == None
  {
    var b1 := b[c + 12 := t];
    var b2 := b1[c + 8 := t];
    var b3 := b2[c + 4 := t];
    var b4 := b3[c := t];
    LastEmptyIs(Column(b, c), 3);
    LastEmptyIs(Column(b1, c), 2);
    LastEmptyIs(Column(b2, c), 1);
    LastEmptyIs(Column(b3, c), 0);
    assert Empty !in Column(b4, c);
  }

  // ---------------------------------------------------------------------
  // The random board
  // ---------------------------------------------------------------------

  /**
   * `Board::new_random`, with the generator's 16 draws passed in as `coins`:
   * a true draw gives a Cookie, a false one a Milk.
   */
  method NewRandom(coins: seq<bool>) returns (tiles: array<Tile>)
    requires |coins| == 16
    ensures fresh(tiles) && tiles.Length == 16
    ensures forall i :: 0 <= i < 16 ==> (tiles[i] == Cookie <==> coins[i]) && tiles[i] != Empty
  {
    tiles := new Tile[16](_ => Empty);
    for i := 0 to 16
      invariant forall k :: 0 <= k < i ==> (tiles[k] == Cookie <==> coins[k]) && tiles[k] != Empty
    {
      tiles[i] := if coins[i] then Cookie else Milk;
    }
  }

  /** A random board is full, hence settled and already over (won or drawn). */
  lemma RandomBoardIsOver(b: Board)
    requires forall i :: 0 <= i < 16 ==> b[i] != Empty
    ensures Settled(b) && OutcomeOf(b) != InProgress
  {
    assert Empty !in b;
  }

  // ---------------------------------------------------------------------
  // Rendering
  // ---------------------------------------------------------------------

  const WHITE_SQUARE: char := '⬜'
  const BLACK_SQUARE: char := '⬛'
  const COOKIE_EMOJI: char := '\U{1F36A}'
  const MILK_GLASS: char := '\U{1F95B}'

  function Glyph(t: Tile): char
  {
    match t
    case Empty => BLACK_SQUARE
    case Cookie => COOKIE_EMOJI
    case Milk => MILK_GLASS
  }

  /** One grid line: a white frame square, the row's four glyphs, a frame square, a newline. */
  function RowText(b: Board, row: nat): (s: string)
    requires row < 4
    ensures |s| == 7
  {
    [WHITE_SQUARE] + Glyphs(b, row, 4) + [WHITE_SQUARE, '\n']
  }

  /** The glyphs of the first `n` tiles of row `row`. */
  function Glyphs(b: Board, row: nat, n: nat): (s: string)
    requires row < 4 && n <= 4
    ensures |s| == n
  {
    if n == 0 then [] else Glyphs(b, row, n - 1) + [Glyph(b[4 * row + n - 1])]
  }

  /** The first `n` grid lines. */
  function GridText(b: Board, n: nat): (s: string)
    requires n <= 4
    ensures |s| == 7 * n
  {
    if n == 0 then [] else GridText(b, n - 1) + RowText(b, n - 1)
  }

  /** The message after the grid: a newline and the winner, "No winner." for a draw, nothing otherwise. */
  function Trailer(o: Outcome): string
    requires o.Won? ==> o.winner != Empty
  {
    match o
    case Won(Cookie) => "\n" + [COOKIE_EMOJI] + " wins!"
    case Won(Milk) => "\n" + [MILK_GLASS] + " wins!"
    case Draw => "\nNo winner."
    case InProgress => ""
  }

  const BOTTOM_ROW: string := [WHITE_SQUARE, WHITE_SQUARE, WHITE_SQUARE, WHITE_SQUARE, WHITE_SQUARE, WHITE_SQUARE]

  /** The text `render` produces for `b`. */
  function Rendered(b: Board): (s: string)
  {
    GridText(b, 4) + BOTTOM_ROW + Trailer(OutcomeOf(b)) + "\n"
  }

  lemma {:induction false} GridTextRows(b: Board, n: nat)
    requires n <= 4
    ensures forall row :: 0 <= row < n ==> GridText(b, n)[7 * row .. 7 * row + 7] == RowText(b, row)
  {
    if n > 0 {
      GridTextRows(b, n - 1);
      var g := GridText(b, n);
      assert g == GridText(b, n - 1) + RowText(b, n - 1);
      forall row | 0 <= row < n ensures g[7 * row .. 7 * row + 7] == RowText(b, row) {
        if row < n - 1 {
          assert g[7 * row .. 7 * row + 7] == GridText(b, n - 1)[7 * row .. 7 * row + 7];
        } else {
          assert g[7 * row .. 7 * row + 7] == g[7 * (n - 1) ..];
        }
      }
    }
  }

  /**
   * The layout of the rendered text: grid line `row` (a white square, the
   * row's glyphs, a white square, a newline) at positions 7 * row .. 7 * row + 7.
   */
  lemma RenderedRows(b: Board)
    ensures forall row :: 0 <= row < 4 ==> Rendered(b)[7 * row .. 7 * row + 7] == RowText(b, row)
  {
    GridTextRows(b, 4);
    var g := GridText(b, 4);
    var s := Rendered(b);
    assert s == g + (BOTTOM_ROW + Trailer(OutcomeOf(b)) + "\n");
    forall row | 0 <= row < 4 ensures s[7 * row .. 7 * row + 7] == RowText(b, row) {
      assert s[7 * row .. 7 * row + 7] == g[7 * row .. 7 * row + 7];
    }
  }

  /** After the grid: six white squares, then the outcome's message and a newline. */
  lemma RenderedTail(b: Board)
    ensures |Rendered(b)| == 35 + |Trailer(OutcomeOf(b))|
    ensures Rendered(b)[28..34] == BOTTOM_ROW
    ensures Rendered(b)[34..] == Trailer(OutcomeOf(b)) + "\n"
  {
    var s := Rendered(b);
    assert s == GridText(b, 4) + (BOTTOM_ROW + (Trailer(OutcomeOf(b)) + "\n"));
  }

  lemma {:induction false} GlyphsAt(b: Board, row: nat, n: nat)
    requires row < 4 && n <= 4
    ensures forall j :: 0 <= j < n ==> Glyphs(b, row, n)[j] == Glyph(b[4 * row + j])
  {
    if n > 0 {
      GlyphsAt(b, row, n - 1);
    }
  }

  /** A grid line shows each of its row's four tiles. */
  lemma RowTextDeterminesRow(b: Board, b': Board, row: nat)
    requires row < 4 && RowText(b, row) == RowText(b', row)
    ensures b[4 * row] == b'[4 * row] && b[4 * row + 1] == b'[4 * row + 1]
    ensures b[4 * row + 2] == b'[4 * row + 2] && b[4 * row + 3] == b'[4 * row + 3]
  {
    GlyphsAt(b, row, 4);
    GlyphsAt(b', row, 4);
    assert Glyphs(b, row, 4) == RowText(b, row)[1..5] == RowText(b', row)[1..5] == Glyphs(b', row, 4);
    assert Glyph(b[4 * row]) == Glyph(b'[4 * row]) by {
      assert Glyphs(b, row, 4)[0] == Glyphs(b', row, 4)[0];
    }
    assert Glyph(b[4 * row + 1]) == Glyph(b'[4 * row + 1]) by {
      assert Glyphs(b, row, 4)[1] == Glyphs(b', row, 4)[1];
    }
    assert Glyph(b[4 * row + 2]) == Glyph(b'[4 * row + 2]) by {
      assert Glyphs(b, row, 4)[2] == Glyphs(b', row, 4)[2];
    }
    assert Glyph(b[4 * row + 3]) == Glyph(b'[4 * row + 3]) by {
      assert Glyphs(b, row, 4)[3] == Glyphs(b', row, 4)[3];
    }
  }

  /** Boards whose four grid lines agree are the same board. */
  lemma RowTextsDetermineBoard(b: Board, b': Board)
    requires forall row :: 0 <= row < 4 ==> RowText(b, row) == RowText(b', row)
    ensures b == b'
  {
    RowTextDeterminesRow(b, b', 0);
    RowTextDeterminesRow(b, b', 1);
    RowTextDeterminesRow(b, b', 2);
    RowTextDeterminesRow(b, b', 3);
    forall i | 0 <= i < 16 ensures b[i] == b'[i] {
      if i < 4 {
      } else if i < 8 {
      } else if i < 12 {
      } else {
      }
    }
  }

  /** Different boards render differently: the text shows every tile. */
  lemma RenderedDeterminesBoard(b: Board, b': Board)
    requires Rendered(b) == Rendered(b')
    ensures b == b'
  {
    RenderedRows(b);
    RenderedRows(b');
    RowTextsDetermineBoard(b, b');
  }

  /** Sums none of which is 4 or -4 name no winner. */
  lemma {:induction false} NoVerdictNoWin(sums: seq<int>)
    requires forall i :: 0 <= i < |sums| ==> Verdict(sums[i]).None?
    ensures FirstWin(sums) == None
  {
    if sums != [] {
      NoVerdictNoWin(sums[1..]);
    }
  }

  /** The empty board has no line and free cells: the game is in progress. */
  lemma EmptyBoardInProgress()
    ensures OutcomeOf(EMPTY_BOARD) == InProgress
  {
    var b: Board := EMPTY_BOARD;
    NoVerdictNoWin(LineSums(b));
    assert b[0] == Empty;
  }


  /** A grid line of the empty board: black squares in a white frame. */
  const EMPTY_ROW: string := [WHITE_SQUARE, BLACK_SQUARE, BLACK_SQUARE, BLACK_SQUARE, BLACK_SQUARE, WHITE_SQUARE, '\n']

  /** The freshly reset board: four empty grid lines, the bottom row, no message. */
  lemma RenderedEmptyBoard()
    ensures Rendered(EMPTY_BOARD) == EMPTY_ROW + EMPTY_ROW + EMPTY_ROW + EMPTY_ROW + BOTTOM_ROW + "\n"
  {
    var b: Board := EMPTY_BOARD;
    EmptyBoardInProgress();
    EmptyRowText(0);
    EmptyRowText(1);
    EmptyRowText(2);
    EmptyRowText(3);
    assert GridText(b, 2) == EMPTY_ROW + EMPTY_ROW;
    assert GridText(b, 3) == EMPTY_ROW + EMPTY_ROW + EMPTY_ROW;
  }

  lemma EmptyRowText(row: nat)
    requires row < 4
    ensures RowText(EMPTY_BOARD, row) == EMPTY_ROW
  {
    GlyphsAt(EMPTY_BOARD, row, 4);
  }


  /** `render`: append the grid in nested loops, the bottom row, then the outcome's message. */
  method Render(tiles: array<Tile>) returns (s: string)
    requires tiles.Length == 16
    ensures s == Rendered(tiles[..])
  {
    var b: Board := tiles[..];
    s := [];
    for row := 0 to 4
      invariant s == GridText(b, row)
    {
      s := s + [WHITE_SQUARE];
      for col := 0 to 4
        invariant s == GridText(b, row) + [WHITE_SQUARE] + Glyphs(b, row, col)
      {
        assert Glyphs(b, row, col + 1) == Glyphs(b, row, col) + [Glyph(b[4 * row + col])];
        s := s + [Glyph(tiles[row * 4 + col])];
      }
      assert GridText(b, row + 1) == GridText(b, row) + ([WHITE_SQUARE] + Glyphs(b, row, 4) + [WHITE_SQUARE, '\n']);
      s := s + [WHITE_SQUARE] + ['\n'];
    }
    s := s + BOTTOM_ROW;
    var outcome := CheckForWinner(tiles);
    s := s + Trailer(outcome) + "\n";
  }

}
