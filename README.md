# shuttlings-cch24 handlers, modelled in Dafny

This project models the logic of the HTTP handlers of six source files of
the `shuttlings-cch24` Rust service and proves properties about it.

- **Connect-four game (`src/day_12.rs`).** Sixteen tiles are packed two
  bits each into one `u64` word. Moves drop a tile into a column with
  gravity, and a line of four decides the winner. The board is rendered as
  an emoji grid.
- **Milk bucket (`src/day_9.rs`).** The state is one `u64`: byte 0 holds
  the milk level and bytes 1..7 hold the time of the last withdrawal. A
  withdrawal first refills the bucket by one unit per elapsed second, up to
  five.
- **Address "encryption" (`src/day_2.rs`).** An IPv4 key is added octet by
  octet with wrap-around. An IPv6 key is applied with XOR.
- **Quote pagination (`src/day_19.rs`).** A page token holds the page
  number as 16 upper-case hex digits, and each page lists three quotes.
- **Decorations (`src/day_23.rs`).** A present cycles through three
  colours and an ornament toggles between on and off. A lockfile package
  checksum gives a colour and two offsets, and the lockfile answer
  collects them across all uploaded documents.
- **Cargo manifest orders (`src/day_5.rs`).** The content type selects the
  parser and the status code. Orders with a string item and a `u32`
  quantity are kept and listed one per line.

Modules:

| module | models |
|---|---|
| `Wrappers` (`wrappers.dfy`) | `Option`, `Result`, bytes and `u64` words |
| `Radix` (`radix.dfy`) | `from_str_radix`, `{:016X}` formatting and `to_string` for unsigned integers |
| `ConnectFour` (`board.dfy`) | the `Tile` and `Board` types of `src/day_12.rs` |
| `Game` (`game.dfy`) | the handlers of `src/day_12.rs`, as a class holding the board word |
| `MilkBucket` (`bucket.dfy`) | `src/day_9.rs` |
| `IpKeys` (`ip_keys.dfy`) | `src/day_2.rs` |
| `Quotes` (`quotes.dfy`) | `src/day_19.rs` |
| `Decorations` (`decorations.dfy`) | `src/day_23.rs` |
| `CargoOrders` (`manifest.dfy`) | `src/day_5.rs` |

Modelling conventions:

- **Words.** A `u64` is a `nat` below 2^64. A shift right by `k` bits is a
  division by 2^k, and a mask is a remainder. `encode` ORs each tile's
  two-bit code into the word at bits 2i and 2i+1, and `Encode` writes that
  step as an addition. That the two agree is argued, not proved: `Packed`
  of the first i tiles is below 4^i (its `ensures`), so bits 2i and up are
  still zero when tile i is added. No member proves a bit-level lemma that
  OR equals addition on disjoint fields. `Encode`'s loop invariant is
  `acc == Packed(tiles[..i])`.
- **Build profile.** The model follows a release build, where `i64`/`u64`
  arithmetic wraps instead of panicking. Only the quote pages spell the
  wrapping out (`Quotes.Wrap`), because a client's token reaches it
  directly. The milk bucket's overflow needs a clock that runs backwards
  or a stored level above 250. No state the handlers write has such a
  level (`MilkBucket.Bucket.Valid` keeps it at most 5). So `MilkBucket.Withdraw`
  excludes those inputs by `requires` instead of modelling their wrapped
  result.
- **Code that fills arrays in place** keeps the array: board decoding,
  encoding, dropping, rendering, the winner scan, the bucket's byte arrays
  and the IPv6 segment loop. Each such method is proved against a
  specification function.
- **Global atomics.** The `BOARD` word and the `BUCKET_STATE` word are
  fields of the classes `Game.Game` and `MilkBucket.Bucket`. Each
  `fetch_update`, `swap` or `store` is one sequential update: apply the
  transition to the field, and store the result only if it is `Some`.
- **Clock and random generator.** The clock (`now`) and the random
  generator's sixteen draws (`coins`) are parameters.
- **Parsers, database and multipart stream.** Parser results (TOML, YAML,
  JSON, the multipart fields) are datatypes passed in. The database's
  quote count is a parameter.
- **Panics.** A panic in the source is a `requires` when it is a fatal
  precondition of a pure step. These are: field value 3 in `decode`, the
  `u64` subtraction and the `u8` addition in the withdrawal closure, and
  slicing a checksum off a character boundary. The `unwrap` of a missing
  `package` array in `lockfile` is the reply `Panicked` instead.

## Model

| member | source | states |
|---|---|---|
| ConnectFour.TileFor | src/day_12.rs:39-44 | a field holding 0, 1 or 2 decodes to the tile whose code is that value |
| ConnectFour.Unpacked | src/day_12.rs:35-47 | no contract of its own; stated by `UnpackPack` and `PackUnpack` (decoding and encoding invert each other) |
| ConnectFour.Field | src/day_12.rs:38 | `(w >> 2i) & 0b11` is a 2-bit value |
| ConnectFour.Packed | src/day_12.rs:49-60 | the packed word of `n` tiles is below 4^n |
| ConnectFour.Pow4Sixteen | src/day_12.rs:49-60 | sixteen 2-bit fields fill exactly the low 32 bits |
| ConnectFour.FieldOfPacked | src/day_12.rs:49-60 | field `i` of the encoded word holds the code of tile `i` |
| ConnectFour.PackedSnoc | src/day_12.rs:57 | one loop step of `encode` puts the tile's code at bits 2i..2i+1 of the word |
| ConnectFour.UnpackedPrefix | src/day_12.rs:37-45 | decoding `n` fields gives `n` tiles |
| ConnectFour.PackedUnpackedPrefix | src/day_12.rs:35-60 | encoding the first `n` decoded tiles of a word below 4^n gives the word back |
| ConnectFour.UnpackPack | src/day_12.rs:35-60 | `decode(encode(b)) == b` for every board, and the encoded word has no field holding 3 |
| ConnectFour.PackUnpack | src/day_12.rs:35-60 | `encode(decode(w)) == w` for every word below 2^32 whose fields are all at most 2 |
| ConnectFour.Decode | src/day_12.rs:35-47 | the loop fills a fresh 16-tile array with the decoded board; a field holding 3 is excluded by `requires` (the `unreachable!`) |
| ConnectFour.Encode | src/day_12.rs:49-60 | the loop builds the packed word of the tiles, and that word is below 2^32 |
| ConnectFour.Line | src/day_12.rs:131-155 | line `k` is four cell indices, in the scan order columns 0-3, rows 0-3, main diagonal, anti-diagonal |
| ConnectFour.LineSums | src/day_12.rs:148-155 | there are ten line sums |
| ConnectFour.FirstWin | src/day_12.rs:157-162 | the first sum of 4 or -4 names a player, never Empty |
| ConnectFour.OutcomeOf | src/day_12.rs:113-170 | a won outcome names a player, never Empty |
| ConnectFour.Verdict | src/day_12.rs:114-120 | no contract of its own; stated by `VerdictIsOwnership` (a verdict exactly when one player owns the line) |
| ConnectFour.VerdictIsOwnership | src/day_12.rs:20-24 | a line sums to 4 iff all four of its tiles are Milk, to -4 iff all four are Cookie, and to neither iff nobody owns it |
| ConnectFour.OwnerIsFirstTile | src/day_12.rs:114-120 | only the tile in a line's first cell can own the line |
| ConnectFour.FirstWinIsFirstOwner | src/day_12.rs:157-162 | scanning the sums from line `k` on finds the same winner as scanning for four equal tiles |
| ConnectFour.OutcomeBySums | src/day_12.rs:113-170 | the sum-based outcome equals the reference outcome by tile equality |
| ConnectFour.FirstOwnerSound | src/day_12.rs:157-162 | a winner owns some later line, and no winner means no later line is owned |
| ConnectFour.OutcomeMeaning | src/day_12.rs:157-169 | a win names a player that owns a line; a draw means no line is owned and no cell is Empty; in progress means no line is owned and some cell is Empty |
| ConnectFour.FullBoardIsOver | src/day_12.rs:165-166 | a board with no Empty cell is won or drawn |
| ConnectFour.AccumulatedLineSums | src/day_12.rs:148-155 | the accumulated column, row and diagonal sums, chained in scan order, are the ten line sums |
| ConnectFour.AccumulatedSums | src/day_12.rs:131-147 | summed over all four rows, the running column and diagonal sums equal the line sums |
| ConnectFour.LineTotals | src/day_12.rs:124-155 | the row-by-row accumulation loop produces the ten line sums of the board |
| ConnectFour.CheckForWinner | src/day_12.rs:113-170 | the method returns the outcome of the board: the first winning line, else a draw without Empty cells, else in progress |
| ConnectFour.FirstVerdict | src/day_12.rs:157-162 | the scan loop returns the verdict of the first winning sum |
| ConnectFour.WinnerFromScan | src/day_12.rs:157-169 | a found verdict is the winner; without one the board is a draw exactly when no cell is Empty |
| ConnectFour.Column | src/day_12.rs:172-180 | `get_col(c)` lists the cells c, c+4, c+8, c+12 from the top row to the bottom row |
| ConnectFour.LastEmpty | src/day_12.rs:184-189 | the reverse search finds the highest-indexed Empty cell; none exactly when the column holds no Empty |
| ConnectFour.LastEmptyIs | src/day_12.rs:184-189 | an Empty cell with no Empty below it is the one the search finds |
| ConnectFour.Pushed | src/day_12.rs:182-192 | no contract of its own; stated by `PushedMeaning` and `PushKeepsSettled` |
| ConnectFour.PushedMeaning | src/day_12.rs:182-192 | a drop fails exactly when the column is full; otherwise it writes the tile into the lowest Empty cell and changes no other cell |
| ConnectFour.PushItem | src/day_12.rs:182-192 | the in-place drop reports success exactly when the column has room, writes the dropped board, and leaves the array untouched on failure |
| ConnectFour.PushKeepsSettled | src/day_12.rs:182-192 | dropping a player's tile keeps every non-Empty tile standing on a non-Empty tile |
| ConnectFour.FillColumn | src/day_12.rs:182-192 | four drops into an empty column fill it bottom to top, and a fifth is refused |
| ConnectFour.NewRandom | src/day_12.rs:62-71 | every cell gets Cookie for a true draw and Milk for a false one, never Empty |
| ConnectFour.RandomBoardIsOver | src/day_12.rs:62-71 | a board without Empty cells is settled and already won or drawn |
| ConnectFour.RowText | src/day_12.rs:76-89 | a grid line is seven characters long |
| ConnectFour.GridText | src/day_12.rs:76-89 | `n` grid lines are 7n characters long |
| ConnectFour.GridTextRows | src/day_12.rs:76-89 | grid line `row` sits at positions 7·row .. 7·row+7 |
| ConnectFour.Rendered | src/day_12.rs:73-111 | no contract of its own; stated by `RenderedRows`, `RenderedTail` and `RenderedDeterminesBoard` |
| ConnectFour.Trailer | src/day_12.rs:93-107 | no contract of its own; stated by `RenderedTail` (the outcome's message after the bottom row) |
| ConnectFour.Glyph | src/day_12.rs:80-84 | no contract of its own; stated by `GlyphsAt` and `RowTextDeterminesRow` (distinct tiles show distinct glyphs) |
| ConnectFour.RenderedRows | src/day_12.rs:76-89 | the rendered text starts with the four grid lines, each a white square, four glyphs, a white square and a newline |
| ConnectFour.RenderedTail | src/day_12.rs:91-108 | the grid is followed by six white squares, then the outcome's message and a final newline |
| ConnectFour.GlyphsAt | src/day_12.rs:78-86 | glyph `j` of a row shows the tile in column `j` |
| ConnectFour.RowTextDeterminesRow | src/day_12.rs:76-89 | a grid line determines the four tiles of its row |
| ConnectFour.RowTextsDetermineBoard | src/day_12.rs:76-89 | four equal grid lines mean equal boards |
| ConnectFour.RenderedDeterminesBoard | src/day_12.rs:73-111 | different boards render to different texts |
| ConnectFour.NoVerdictNoWin | src/day_12.rs:157-162 | sums none of which is ±4 name no winner |
| ConnectFour.EmptyBoardInProgress | src/day_12.rs:164-169 | the empty board is in progress |
| ConnectFour.RenderedEmptyBoard | src/day_12.rs:73-111 | the empty board renders as four black rows, the bottom row and a newline, with no message |
| ConnectFour.EmptyRowText | src/day_12.rs:76-89 | a row of the empty board shows four black squares between white squares |
| ConnectFour.Render | src/day_12.rs:73-111 | the nested append loops produce exactly the rendered text of the board |
| Game.TeamTile | src/day_12.rs:236-240 | only "cookie" and "milk" name a team, as Cookie and Milk |
| Game.ParseColumn | src/day_12.rs:242-245 | a column is accepted exactly when it parses as a decimal `usize` in 1..4, and the accepted column is that parsed value less one |
| Game.ColumnTokens | src/day_12.rs:242-245 | "1".."4" name columns 0..3; "0", "5" and the empty string are refused |
| Game.Placed | src/day_12.rs:235-273 | the status is 200, 400 or 503; 400 exactly for a bad team or column, with no body; the board changes only when the game was in progress; 200 means a drop that did not draw and answers the new board's rendering |
| Game.PlaceOnFinishedGame | src/day_12.rs:250-254 | a won or drawn game answers 503 with the rendered board and keeps it |
| Game.PlaceIntoFullColumn | src/day_12.rs:256-271 | a full column answers 503 without a body and keeps the board |
| Game.PlaceDrops | src/day_12.rs:256-269 | a column with room takes the team's tile; the answer renders the new board and is 503 exactly when that board is a draw |
| Game.PlaceKeepsSettled | src/day_12.rs:235-273 | no move makes a tile float above an Empty cell |
| Game.PlacedStatusAsWritten | src/day_12.rs:256-269 | the status as written checks the board from before the move: 503 exactly when that board was a draw |
| Game.AsWrittenDropAnswers200 | src/day_12.rs:250-269 | as written, every successful drop answers 200 |
| Game.AlmostDrawnInProgress | src/day_12.rs:164-169 | the board with one empty top-left cell and no line is in progress |
| Game.DrawnIsDraw | src/day_12.rs:164-166 | the same board with that cell filled is a draw |
| Game.LastCellDrop | src/day_12.rs:182-192 | a cookie dropped into column 1 of that board fills its last cell |
| Game.LastCellDraw | src/day_12.rs:256-269 | the drop that fills the last cell is answered 503 by the corrected check and 200 as written |
| Game.EmptyWord | src/day_12.rs:195-217 | the zero word decodes to the empty board, which is settled |
| Game.CoinBoard | src/day_12.rs:62-71 | the random board has Cookie exactly where the draw was true and no Empty cell |
| Game.Game.constructor | src/day_12.rs:195 | the board word starts at 0, the empty board |
| Game.Game.Show | src/day_12.rs:203-208 | `render_board` answers the rendering of the decoded word |
| Game.Game.Reset | src/day_12.rs:210-222 | the word becomes 0 and the answer is 200 with the empty board's rendering |
| Game.Game.RandomBoard | src/day_12.rs:224-233 | the word becomes the encoded random board and the answer is 200 with its rendering |
| Game.Game.Place | src/day_12.rs:235-273 | status, body and the new word are those `Placed` decides for the board before the move; the word stays a decodable, settled board |
| MilkBucket.LeBytes | src/day_9.rs:16 | `to_le_bytes` gives `n` bytes |
| MilkBucket.FromLe | src/day_9.rs:20 | `from_le_bytes` of `n` bytes is below 256^n |
| MilkBucket.FromLeBytes | src/day_9.rs:16-20 | reading back the little-endian bytes of a word gives the word |
| MilkBucket.LeBytesFrom | src/day_9.rs:24-28 | the bytes of a word read from bytes are those bytes |
| MilkBucket.StateWord | src/day_9.rs:14-21 | the encoded state's byte 0 is the bucket size and its bytes 1..7 are those of the timestamp |
| MilkBucket.Level | src/day_9.rs:25 | the decoded level is byte 0 of the word |
| MilkBucket.Stamp | src/day_9.rs:26-29 | the decoded timestamp is the word with byte 0 zeroed |
| MilkBucket.StateArithmetic | src/day_9.rs:14-31 | the decoded timestamp is the word less its low byte; the encoded word is the size plus the timestamp less its low byte |
| MilkBucket.DecodeEncode | src/day_9.rs:14-31 | decoding an encoded state gives the size and the timestamp rounded down to a multiple of 256 |
| MilkBucket.EncodeDecode | src/day_9.rs:14-31 | encoding a decoded state gives the word back |
| MilkBucket.TestRoundTrip | src/day_9.rs:118-127 | the round trip of size 10 and timestamp 1 614 000 000 000 gives both back |
| MilkBucket.EncodeState | src/day_9.rs:14-21 | the byte-array method computes the encoded state |
| MilkBucket.DecodeState | src/day_9.rs:23-31 | the byte-array method computes the decoded level and timestamp |
| MilkBucket.RefillUnits | src/day_9.rs:63-65 | at most five units are refilled, and none exactly when less than 1000 ms have passed |
| MilkBucket.Withdraw | src/day_9.rs:53-75 | the withdrawal fails exactly when the bucket is empty and less than a second has passed; otherwise the new stamp is `now` with its low byte dropped and the new level is the refilled level capped at 5, less one, which is below 5 whenever the old level was at most 5 |
| MilkBucket.WithdrawSameInstant | src/day_9.rs:53-75 | at the same instant an empty bucket refuses and a non-empty one loses exactly one unit |
| MilkBucket.FiveWithdrawals | src/day_9.rs:53-75 | a full bucket gives five withdrawals at one instant and refuses a sixth |
| MilkBucket.RefillExamples | src/day_9.rs:63-72 | an empty bucket refuses after 500 ms, gives one unit after 1000 ms, and refills to five (leaving four) after 5000 ms |
| MilkBucket.Bucket.constructor | src/day_9.rs:42 | the state starts at 0 |
| MilkBucket.Bucket.Milk | src/day_9.rs:53-90 | a refused withdrawal answers 429 "No milk available" and keeps the state; a granted one stores the new state and answers 200 "Milk withdrawn" |
| MilkBucket.Bucket.Refill | src/day_9.rs:108-116 | the state becomes level 5 stamped `now`, and the answer is 200 |
| IpKeys.WrappingAdd | src/day_2.rs:17-19 | `overflowing_add(..).0` is the sum modulo 256 |
| IpKeys.WrappingSub | src/day_2.rs:42-44 | `overflowing_sub(..).0` is the difference modulo 256 |
| IpKeys.Dest | src/day_2.rs:15-33 | each destination octet is `(from[i] + key[i]) mod 256` |
| IpKeys.Key | src/day_2.rs:40-58 | each key octet is `(to[i] - from[i]) mod 256` |
| IpKeys.KeyOfDest | src/day_2.rs:15-58 | `key(from, dest(from, k)) == k` |
| IpKeys.DestOfKey | src/day_2.rs:15-58 | `dest(from, key(from, to)) == to` |
| IpKeys.Xor | src/day_2.rs:66-103 | octet-wise XOR keeps the length |
| IpKeys.XorCancels | src/day_2.rs:66-103 | XOR with the same octets twice cancels out, from either side |
| IpKeys.XorSegments | src/day_2.rs:67-77 | the segment loop stores `first[i] XOR second[i]` at each index |
| IpKeys.V6Dest | src/day_2.rs:66-81 | `v6_dest` is the octet-wise XOR of `from` and `key` |
| IpKeys.V6Key | src/day_2.rs:88-103 | `v6_key` is the octet-wise XOR of `to` and `from` |
| IpKeys.V6Inverse | src/day_2.rs:66-103 | `v6_key(from, v6_dest(from, k)) == k` and `v6_dest(from, v6_key(from, to)) == to` |
| Quotes.AsU64 | src/day_19.rs:21 | `page as u64` is congruent to the page modulo 2^64, and below 2^63 exactly for non-negative pages |
| Quotes.AsI64 | src/day_19.rs:27 | `parsed as i64` is congruent modulo 2^64, and negative exactly for values of 2^63 and more |
| Quotes.Reinterpret | src/day_19.rs:20-28 | the two casts undo each other |
| Quotes.Wrap | src/day_19.rs:161-192 | `i64` arithmetic wraps modulo 2^64 and is exact without overflow |
| Quotes.EncodePage | src/day_19.rs:20-22 | the token is 16 upper-case hex digits whose value is `page as u64` |
| Quotes.DecodePage | src/day_19.rs:25-28 | a token is accepted exactly when, after an optional '+', it is at least one hex digit of either case with a value below 2^64; its page is that value read as `i64`, negative exactly when the value is at least 2^63 |
| Quotes.DecodeExamples | src/day_19.rs:25-28 | tokens `encode_page` never writes still decode: "a" is page 10, "+1" and "0001" are page 1 |
| Quotes.DecodeEncode | src/day_19.rs:20-28 | `decode_page(encode_page(p)) == Some(p)` for every `i64` page |
| Quotes.DecodeRejectsNonHex | src/day_19.rs:26 | a token with a non-hex character, other than a leading '+', is refused |
| Quotes.DecodeRejectsTooLarge | src/day_19.rs:26 | a hex token whose value does not fit a `u64` is refused |
| Quotes.ListPage | src/day_19.rs:150-195 | 400 exactly for a token that does not decode or whose (wrapped) offset is negative, which the database refuses; an accepted offset is non-negative; no token means page 1 at offset 0; a next token decodes to the reported page |
| Quotes.NextPageRule | src/day_19.rs:161-192 | for a non-negative page without overflow: the listing is accepted, offset is page·3, the reported page is page+1, and there is no next token exactly when offset+3 ≥ count |
| Quotes.NegativePageRefused | src/day_19.rs:161-188 | a token for a negative page whose offset does not overflow is answered with 400, because the offset is negative |
| Quotes.FollowToken | src/day_19.rs:155-174 | following a next token reaches the next page, three quotes further on |
| Quotes.FirstPage | src/day_19.rs:155-174 | the first listing has a next token exactly when more than three quotes are stored, and that token is page 1's |
| Quotes.NegativeToken | src/day_19.rs:20-28 | page -1 prints as sixteen F's, that token decodes to -1, and listing with it is answered with 400 |
| Decorations.NextColour | src/day_23.rs:19-24 | only red, blue and purple have a next colour, and it differs from the current one |
| Decorations.ColourPresent | src/day_23.rs:18-37 | an unknown colour is 418; a known one links to the next colour's present |
| Decorations.ColourCycle | src/day_23.rs:19-24 | three steps of the cycle return to the starting colour, and two do not |
| Decorations.OrnamentView | src/day_23.rs:39-60 | an unknown state is 418; the id is "ornament" + n, the link names the next state and n, and the class is "ornament on" exactly for "on" |
| Decorations.OrnamentToggles | src/day_23.rs:42-46 | the next state shows the other class and links back to the current state |
| Decorations.Chars | src/day_23.rs:76-78 | the checksum bytes read as characters keep their codes |
| Decorations.HexU8 | src/day_23.rs:86-87 | a slice is accepted exactly when, after an optional '+', it is at least one hex digit with a value below 256, and that value is the parsed `u8` |
| Decorations.HexPairParses | src/day_23.rs:86-87 | two ASCII hex digits always parse as a `u8` |
| Decorations.Cal | src/day_23.rs:70-90 | a checksum shorter than 10 is refused; an accepted one gives a colour of '#' and six hex bytes copied in order, and the two offsets are the hex values of bytes 6..8 and 8..10 |
| Decorations.CalRejectsColour | src/day_23.rs:81-83 | a non-hex byte among the first six refuses the checksum |
| Decorations.CalRejectsOffset | src/day_23.rs:86-87 | an offset slice that is not a hex `u8` refuses the checksum |
| Decorations.CalAcceptsHexDigits | src/day_23.rs:70-90 | a checksum whose first ten bytes are ASCII hex digits is accepted, with its first six bytes as the colour |
| Decorations.CalAccepts | src/day_23.rs:70-90 | six hex bytes and two parsing offsets give exactly `("#" + checksum[0..6], top, left)` |
| Decorations.CalIgnoresTail | src/day_23.rs:76-89 | bytes after index 10 do not matter |
| Decorations.CalLowerCase | src/day_23.rs:70-90 | "a1b2c3ff10e9" gives ("#a1b2c3", 255, 16), case preserved |
| Decorations.CalPlusSign | src/day_23.rs:86-87 | "a1b2c3+f0a" gives ("#a1b2c3", 15, 10): `from_str_radix` takes a leading '+' |
| Decorations.CalFailures | src/day_23.rs:72-83 | a 9-byte checksum and one with 'g' in the colour are refused |
| Decorations.Prepend | src/day_23.rs:109 | pushing squares in front of a successful reply extends it, and leaves a failure as it is |
| Decorations.LockfileReply | src/day_23.rs:93-129 | a successful lockfile answer holds at least one square |
| Decorations.PrependAssoc | src/day_23.rs:106-111 | pushing squares one at a time is pushing them together |
| Decorations.Lockfile | src/day_23.rs:93-129 | the nested field and package loops compute the lockfile answer |
| Decorations.EntryResults | src/day_23.rs:106-111 | a document yields at most one `cal` result per package |
| Decorations.ExpectedConsRejects | src/day_23.rs:108 | a refused first checksum makes the reference answer 422 |
| Decorations.ExpectedConsAccepts | src/day_23.rs:108-109 | an accepted first checksum puts its square in front of the rest's reference answer |
| Decorations.Gather | src/day_23.rs:95-112 | no contract of its own; stated by `GatherExpected` and `LockfileMeaning` |
| Decorations.ScanThen | src/day_23.rs:106-111 | no contract of its own; stated by `ScanThenExpected` |
| Decorations.ScanThenExpected | src/day_23.rs:106-111 | scanning one document's packages and then the rest agrees with the reference answer over their `cal` results |
| Decorations.GatherExpected | src/day_23.rs:95-112 | gathering all fields agrees with the reference answer over all `cal` results |
| Decorations.LockfileMeaning | src/day_23.rs:93-129 | a refused checksum anywhere gives 422; no package at all gives 400; otherwise the answer is every package's square, in order |
| Decorations.EntryResultsMeaning | src/day_23.rs:106-107 | every result comes from a deserializable package, and packages that fail to deserialize are skipped |
| Decorations.BadFirstField | src/day_23.rs:95-103 | an unreadable or non-TOML first field answers 400 |
| CargoOrders.Chosen | src/day_5.rs:40-64 | only the TOML, YAML and JSON content types choose a parser |
| CargoOrders.Keep | src/day_5.rs:94-104 | an order is kept exactly when its item is a string and its quantity an integer in 0..=u32::MAX |
| CargoOrders.Kept | src/day_5.rs:92-104 | filtering keeps at most as many orders as there are |
| CargoOrders.KeptAppend | src/day_5.rs:92-104 | the filter works order by order: filtering a concatenation concatenates the filtered parts |
| CargoOrders.KeptMembers | src/day_5.rs:94-104 | every kept pair comes from an order, and every acceptable order's pair is kept |
| CargoOrders.Line | src/day_5.rs:109-111 | `item: quantity` ends in a digit |
| CargoOrders.Fold | src/day_5.rs:105-114 | the fold's counter grows by one per kept order |
| CargoOrders.Joined | src/day_5.rs:105-114 | a non-empty list of lines ends in a digit, so there is no trailing newline |
| CargoOrders.FoldAfterFirst | src/day_5.rs:105-114 | once the counter is positive the fold appends a newline and then the joined lines |
| CargoOrders.FoldJoins | src/day_5.rs:105-114 | the fold from `(0, "")` counts the kept orders and joins their lines with newlines |
| CargoOrders.ManifestResponse | src/day_5.rs:19-126 | the status is 200, 204, 400 or 415; 200 carries a non-empty body; 415 exactly for a present content type that is none of the three |
| CargoOrders.EarlyReturns | src/day_5.rs:35-80 | no content type gives 204; a manifest that does not parse gives 400 "Invalid manifest"; a missing magic keyword gives 400 "Magic keyword not provided" |
| CargoOrders.HasMagicKeyword | src/day_5.rs:66-77 | no contract of its own; stated by `KeywordMeaning`, `InheritedKeywordsRejected` and `EarlyReturns` |
| CargoOrders.KeywordMeaning | src/day_5.rs:66-77 | false without a package or keyword list and for inherited keywords; for a local list, true exactly when "Christmas 2024" is among its words |
| CargoOrders.InheritedKeywordsRejected | src/day_5.rs:70-71 | inherited keywords never carry the magic keyword |
| CargoOrders.OrdersAnswer | src/day_5.rs:82-125 | missing metadata or orders give 204; otherwise no kept order gives 204 and kept orders give 200 with their joined lines |
| CargoOrders.OrdersExample | src/day_5.rs:94-114 | of a toy car ×2, a brick ×2^32, a doll without quantity and a ball ×10, only the car and the ball are listed, as "Toy car: 2\nBall: 10" |
| Radix.DigitValue | src/day_19.rs:26 | an accepted digit is below the radix and is one of 0-9, a-f, A-F |
| Radix.Value | src/day_19.rs:26 | `n` digits denote a number below radix^n |
| Radix.Parse | src/day_19.rs:26 | `from_str_radix` refuses the empty string and a bare '+'; an accepted value is below the limit and is the value of the digits after an optional '+' |
| Radix.Digits | src/day_19.rs:26 | a leading '+' is dropped and nothing else |
| Radix.ParseRejectsNonDigit | src/day_19.rs:26 | a non-digit character, other than a leading '+', is refused |
| Radix.ParseRejectsOverflow | src/day_19.rs:26 | a well-formed digit string is accepted exactly when its value fits |
| Radix.HexDigit | src/day_19.rs:21 | the upper-case digit reads back as its value |
| Radix.UpperHex | src/day_19.rs:21 | `{:0wX}` writes `w` upper-case hex digits |
| Radix.UpperHexValue | src/day_19.rs:21 | the written digits denote the number again |
| Radix.ParseUpperHex | src/day_19.rs:20-26 | parsing what `{:0wX}` wrote gives the number back |
| Radix.Decimal | src/day_5.rs:111 | `to_string` gives a non-empty run of decimal digits without a leading zero |
| Radix.DecimalValue | src/day_5.rs:111 | the decimal digits denote the number |

## Left out

- The atomics (`AtomicU64`, memory orderings, compare-and-swap retries) of
  `src/day_12.rs` and `src/day_9.rs` are left out. Each update is one
  sequential step on a class field, so interleavings of concurrent
  requests are not modelled.
- `render_board()` in `place` re-reads the word after the update. In the
  model it renders the word the update stored, so a concurrent change in
  between is not captured.
- `SystemTime::now` is the parameter `now`. `as_millis() as u64` is
  assumed to fit.
- The seeded `StdRng` and its `Mutex` are the parameter `coins`, and the
  reseed in `reset` is left out. Which boards the seed 2024 produces is
  not modelled.
- The `f32` unit conversions and the JSON body of `milk` (`src/day_9.rs`
  lines 81-105) are left out: they are floating point and serde. The model
  answers 200 "Milk withdrawn" for every granted withdrawal.
- MilkBucket.Withdraw: the `u64` underflow at line 61 (a clock that runs
  backwards) and the `u8` overflow at line 70 (a stored level above 250)
  are excluded by `requires` (`CanWithdraw`). Their wrapped release-build
  result is not modelled (see "Build profile" above).
- ConnectFour.Decode: field value 3 (`unreachable!`) is excluded by
  `requires`. `Game.Game.Valid` keeps the stored word decodable, so no
  handler reaches it.
- The SQL queries, the UUIDs and the `PgPool` of `src/day_19.rs` are left
  out. The quote count is a parameter. The one database error the model
  keeps is the refusal of a negative `OFFSET` (400, in `Quotes.ListPage`).
  A failure of the count query or of the connection (also 400) is not
  modelled.
- Quotes.ListPage: `page_number * 3`, `offset + 3` and `page_number + 1`
  wrap, as in the release build the model follows. A debug build's panic
  on overflow is not modelled. The clean-arithmetic properties
  (`NextPageRule`, `FollowToken`) require no overflow.
- The maud HTML of `src/day_23.rs` is left out. A present, an ornament and
  a square are their fields (colour, next state, link, top, left), not
  markup.
- The multipart stream of `lockfile` is a sequence of fields, each
  already read and parsed as TOML or failed. A stream error is the field
  `Unreadable`.
- Decorations.Cal: slicing a checksum off a UTF-8 character boundary
  panics in the source. The model excludes it by `requires` (`Sliceable`).
  A missing `package` array is the reply `Panicked`.
- The TOML, YAML and JSON parsers and `cargo_manifest` of `src/day_5.rs`
  are a `Parsed` datatype holding each parser's result.
- `HeaderValue::to_str` failing on a non-ASCII header is modelled as the
  content type "", which gives 415 as in the source.
- `Ipv4Addr`/`Ipv6Addr` parsing and printing are left out: addresses are
  their octet sequences.
- `src/main.rs` (routing), `src/day_1.rs` (constant answers) and
  `src/day_16.rs` (JWT cookies) are not part of this model.
- `usize` is taken as 64 bits in the column parse of `place`.
- `check_for_winner` is two methods, `LineTotals` (the accumulation) and
  `FirstVerdict` (the scan), which `CheckForWinner` runs in sequence. Its
  `i8` sums never exceed ±4, so they do not overflow.

## Findings

| source | as written | input that shows it | evidently intended | confidence | as-written member | corrected member |
|---|---|---|---|---|---|---|
| src/day_12.rs:256-269 | `fetch_update` returns `Ok` with the previous word, so the draw check after a successful drop inspects the board from before the move. That board was in progress (lines 251-254), so every successful drop answers 200. | A board whose only Empty cell is the top of column 1 and that has no line; "cookie" is placed in column "1". This fills the board without a line. | 503 for the move that ends the game in a draw, as the outcome of the board after the move says | not executed | Game.PlacedStatusAsWritten, Game.AsWrittenDropAnswers200, Game.LastCellDraw | Game.Placed, Game.PlaceDrops, Game.Game.Place |
