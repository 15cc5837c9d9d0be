/**
 * The tree decorations of src/day_23.rs: the present whose colour cycles,
 * the ornament that toggles, and the lockfile whose package checksums
 * become coloured squares. The HTML markup is not modelled; each handler
 * yields the values its markup is built from, or the status it fails with.
 */
module Decorations {
  import opened Wrappers
  import Radix

  const IM_A_TEAPOT: nat := 418
  const BAD_REQUEST: nat := 400
  const UNPROCESSABLE_ENTITY: nat := 422

  /** The colour the present turns to next: red, blue, purple, red again. */
  function NextColour(colour: string): (next: Option<string>)
    ensures next.Some? <==> colour == "red" || colour == "blue" || colour == "purple"
    ensures next.Some? ==> next.value != colour
  {
    if colour == "red" then Some("blue")
    else if colour == "blue" then Some("purple")
    else if colour == "purple" then Some("red")
    else None
  }

  /** What the present's markup is made of: its colour class and the link to the next colour. */
  datatype Present = Present(colour: string, next: string, link: string)

  /** `colour_present`: 418 for a colour outside the cycle. */
  function ColourPresent(colour: string): (r: Result<Present, nat>)
    ensures r.Err? <==> NextColour(colour).None?
    ensures r.Err? ==> r.error == IM_A_TEAPOT
    ensures r.Ok? ==> r.value.colour == colour && r.value.link == "/23/present/" + r.value.next
  {
    match NextColour(colour)
    case None => Err(IM_A_TEAPOT)
    case Some(next) => Ok(Present(colour, next, "/23/present/" + next))
  }

  /** Three clicks bring every present back to its colour, and no fewer do. */
  lemma ColourCycle(colour: string)
    requires ColourPresent(colour).Ok?
    ensures var one := ColourPresent(colour).value.next;
      ColourPresent(one).Ok? &&
      var two := ColourPresent(one).value.next;
      ColourPresent(two).Ok? && two != colour &&
      ColourPresent(two).value.next == colour
  {
  }

  /** What the ornament's markup is made of. */
  datatype Ornament = Ornament(cssClass: string, id: string, next: string, link: string)

  /** `ornament`: "on" is drawn lit and links to "off", "off" the other way; 418 otherwise. */
  function OrnamentView(state: string, n: string): (r: Result<Ornament, nat>)
    ensures r.Err? <==> state != "on" && state != "off"
    ensures r.Err? ==> r.error == IM_A_TEAPOT
    ensures r.Ok? ==> r.value.id == "ornament" + n
    ensures r.Ok? ==> r.value.link == "/23/ornament/" + r.value.next + "/" + n
    ensures r.Ok? ==> (r.value.cssClass == "ornament on" <==> state == "on")
  {
    var states: Option<(string, string)> :=
      if state == "on" then Some(("off", "ornament on"))
      else if state == "off" then Some(("on", "ornament"))
      else None;
    match states
    case None => Err(IM_A_TEAPOT)
    case Some((nextState, currentState)) =>
      Ok(Ornament(currentState, "ornament" + n, nextState, "/23/ornament/" + nextState + "/" + n))
  }

  /** The ornament alternates: its next state draws the other class and leads back. */
  lemma OrnamentToggles(state: string, n: string)
    requires OrnamentView(state, n).Ok?
    ensures var next := OrnamentView(state, n).value.next;
      OrnamentView(next, n).Ok? &&
      OrnamentView(next, n).value.cssClass != OrnamentView(state, n).value.cssClass &&
      OrnamentView(next, n).value.next == state
  {
  }

  /** Whether `checksum[..i]` ends on a UTF-8 character boundary (`str::is_char_boundary`). */
  predicate Boundary(checksum: seq<Byte>, i: nat)
  {
    i == |checksum| || (i < |checksum| && !(0x80 <= checksum[i] < 0xC0))
  }

  /** The slices taken by `cal` do not panic: a long enough checksum is cut on character boundaries. */
  predicate Sliceable(checksum: seq<Byte>)
  {
    |checksum| < 10 || (Boundary(checksum, 6) && Boundary(checksum, 8) && Boundary(checksum, 10))
  }

  /** `u8::is_ascii_hexdigit`. */
  predicate IsAsciiHexDigit(b: Byte)
  {
    '0' as int <= b <= '9' as int || 'a' as int <= b <= 'f' as int || 'A' as int <= b <= 'F' as int
  }

  /** The characters of ASCII bytes (any other byte becomes a character that no digit test accepts). */
  function Chars(bytes: seq<Byte>): (s: string)
    ensures |s| == |bytes|
    ensures forall i :: 0 <= i < |s| ==> s[i] as int == bytes[i]
  {
    seq(|bytes|, i requires 0 <= i < |bytes| => bytes[i] as char)
  }

  /** `u8::from_str_radix(text, 16)`. */
  function HexU8(text: seq<Byte>): (r: Option<Byte>)
    ensures r.Some? ==> Radix.Digits(Chars(text)) != [] && Radix.AllDigits(Radix.Digits(Chars(text)), 16)
    ensures r.Some? ==> r.value == Radix.Value(Radix.Digits(Chars(text)), 16)
    ensures r.Some? <==> var digits := Radix.Digits(Chars(text));
      digits != [] && Radix.AllDigits(digits, 16) && Radix.Value(digits, 16) < 256
  {
    match Radix.Parse(Chars(text), 16, 256)
    case None => None
    case Some(v) => Some(v)
  }

  /** A coloured square: the colour, the top offset and the left offset. */
  datatype Placement = Placement(colour: string, top: Byte, left: Byte)

  /**
   * `Package::cal`: at least ten bytes; the first six are ASCII hex digits
   * and become the colour `#rrggbb` as written; bytes 6..8 and 8..10 read
   * as hex `u8` give the top and left offsets.
   */
  function Cal(checksum: seq<Byte>): (r: Option<Placement>)
    requires Sliceable(checksum)
    ensures |checksum| < 10 ==> r == None
    ensures r.Some? ==> |r.value.colour| == 7 && r.value.colour[0] == '#'
    ensures r.Some? ==> forall i :: 0 <= i < 6 ==> IsAsciiHexDigit(checksum[i]) && r.value.colour[i + 1] as int == checksum[i]
    ensures r.Some? ==> HexU8(checksum[6..8]) == Some(r.value.top) && HexU8(checksum[8..10]) == Some(r.value.left)
  {
    if |checksum| < 10 then None
    else
      var colour, topHex, leftHex := checksum[0..6], checksum[6..8], checksum[8..10];
      if !(forall i :: 0 <= i < |colour| ==> IsAsciiHexDigit(colour[i])) then None
      else
        match HexU8(topHex)
        case None => None
        case Some(top) =>
          match HexU8(leftHex)
          case None => None
          case Some(left) => Some(Placement("#" + Chars(colour), top, left))
  }

  /** A colour byte that is not a hex digit makes `cal` fail. */
  lemma CalRejectsColour(checksum: seq<Byte>, i: nat)
    requires Sliceable(checksum) && i < 6 && i < |checksum| && !IsAsciiHexDigit(checksum[i])
    ensures Cal(checksum) == None
  {
  }

  /** An offset that does not parse as a hex `u8` makes `cal` fail. */
  lemma CalRejectsOffset(checksum: seq<Byte>)
    requires Sliceable(checksum) && |checksum| >= 10
    requires HexU8(checksum[6..8]).None? || HexU8(checksum[8..10]).None?
    ensures Cal(checksum) == None
  {
  }

  /** Whenever the three parts are well formed, `cal` succeeds with the colour as written and the two offsets. */
  lemma CalAccepts(checksum: seq<Byte>, top: Byte, left: Byte)
    requires Sliceable(checksum) && |checksum| >= 10
    requires forall i :: 0 <= i < 6 ==> IsAsciiHexDigit(checksum[i])
    requires HexU8(checksum[6..8]) == Some(top) && HexU8(checksum[8..10]) == Some(left)
    ensures Cal(checksum) == Some(Placement("#" + Chars(checksum[0..6]), top, left))
  {
  }

  /** Two ASCII hex digits always parse as a `u8`: their value is below 16^2. */
  lemma HexPairParses(pair: seq<Byte>)
    requires |pair| == 2 && IsAsciiHexDigit(pair[0]) && IsAsciiHexDigit(pair[1])
    ensures HexU8(pair).Some?
  {
    var text := Chars(pair);
    assert Radix.Digits(text) == text;
    assert Radix.AllDigits(text, 16) by {
      forall i | 0 <= i < 2 ensures Radix.DigitValue(text[i], 16).Some? {
        assert text[i] as int == pair[i];
      }
    }
    assert Radix.Pow(16, 2) == 256;
  }

  /** A checksum whose first ten bytes are ASCII hex digits is always accepted, its colour as written. */
  lemma CalAcceptsHexDigits(checksum: seq<Byte>)
    requires Sliceable(checksum) && |checksum| >= 10
    requires forall i :: 0 <= i < 10 ==> IsAsciiHexDigit(checksum[i])
    ensures Cal(checksum).Some?
    ensures Cal(checksum).value.colour == "#" + Chars(checksum[0..6])
  {
    HexPairParses(checksum[6..8]);
    HexPairParses(checksum[8..10]);
  }

  /** Bytes after the tenth play no part. */
  lemma CalIgnoresTail(checksum: seq<Byte>)
    requires Sliceable(checksum) && |checksum| >= 10
    ensures Sliceable(checksum[..10])
    ensures Cal(checksum) == Cal(checksum[..10])
  {
    var head := checksum[..10];
    assert head[0..6] == checksum[0..6];
    assert head[6..8] == checksum[6..8];
    assert head[8..10] == checksum[8..10];
  }

  /** The checksum "a1b2c3ff10e9" as bytes. */
  const LOWER_CASE: seq<Byte> := [97, 49, 98, 50, 99, 51, 102, 102, 49, 48, 101, 57]

  /** The checksum "a1b2c3+f0a" as bytes. */
  const PLUS_SIGN: seq<Byte> := [97, 49, 98, 50, 99, 51, 43, 102, 48, 97]

  /** The checksum "a1b2c3ff1" as bytes. */
  const TOO_SHORT: seq<Byte> := [97, 49, 98, 50, 99, 51, 102, 102, 49]

  /** The checksum "a1b2g3ff10" as bytes. */
  const NOT_HEX: seq<Byte> := [97, 49, 98, 50, 103, 51, 102, 102, 49, 48]

  lemma LowerCaseParts()
    ensures var c := LOWER_CASE;
      Chars(c) == "a1b2c3ff10e9" && Chars(c[0..6]) == "a1b2c3" && forall i :: 0 <= i < 6 ==> IsAsciiHexDigit(c[i])
  {
  }

  lemma LowerCaseOffsets()
    ensures var c := LOWER_CASE;
      HexU8(c[6..8]) == Some(255) && HexU8(c[8..10]) == Some(16)
  {
    var c := LOWER_CASE;
    assert Chars(c[6..8]) == "ff";
    assert Radix.Value("ff", 16) == 255;
    assert Chars(c[8..10]) == "10";
    assert Radix.Value("10", 16) == 16;
  }

  /** A checksum in lower-case hex: the colour keeps its case, "ff" is 255 and "10" is 16. */
  lemma CalLowerCase()
    ensures Cal(LOWER_CASE) == Some(Placement("#a1b2c3", 255, 16))
  {
    LowerCaseParts();
    LowerCaseOffsets();
    var checksum := LOWER_CASE;
    CalAccepts(checksum, 255, 16);
    assert "#" + "a1b2c3" == "#a1b2c3";
  }

  lemma PlusSignParts()
    ensures var d := PLUS_SIGN;
      Chars(d) == "a1b2c3+f0a" && Chars(d[0..6]) == "a1b2c3" && forall i :: 0 <= i < 6 ==> IsAsciiHexDigit(d[i])
  {
  }

  lemma PlusSignOffsets()
    ensures var d := PLUS_SIGN;
      HexU8(d[6..8]) == Some(15) && HexU8(d[8..10]) == Some(10)
  {
    var d := PLUS_SIGN;
    assert Chars(d[6..8]) == "+f";
    assert Radix.Digits("+f") == "f";
    assert Chars(d[8..10]) == "0a";
    assert Radix.Value("0a", 16) == 10;
  }

  /** A leading '+' is a valid sign for `from_str_radix`, so "+f" is an offset of 15. */
  lemma CalPlusSign()
    ensures Cal(PLUS_SIGN) == Some(Placement("#a1b2c3", 15, 10))
  {
    PlusSignParts();
    PlusSignOffsets();
    var checksum := PLUS_SIGN;
    CalAccepts(checksum, 15, 10);
    assert "#" + "a1b2c3" == "#a1b2c3";
  }

  /** Nine bytes are too few, and a 'g' in the colour is no hex digit. */
  lemma CalFailures()
    ensures Chars(TOO_SHORT) == "a1b2c3ff1" && Cal(TOO_SHORT) == None
    ensures Chars(NOT_HEX) == "a1b2g3ff10"
    ensures Cal(NOT_HEX) == None
  {
    CalRejectsColour(NOT_HEX, 4);
  }

  /** A package entry of the lockfile, after `try_into::<Package>`. */
  datatype Entry = Undeserializable | Package(checksum: seq<Byte>)

  /** A multipart field's text read as TOML: invalid, or a table whose `package` key holds an array (or not). */
  datatype Document = Invalid | Table(packages: Option<seq<Entry>>)

  /** A multipart field: one that fails to arrive or to read as text, or its text. */
  datatype Field = Unreadable | Text(document: Document)

  /** The answer of `lockfile`: the squares to draw, a failure status, or a panic. */
  datatype Reply = Squares(placements: seq<Placement>) | Failed(status: nat) | Panicked

  /** Squares found so far followed by whatever the rest yields. */
  function Prepend(ps: seq<Placement>, rest: Reply): (r: Reply)
    ensures rest.Squares? ==> r == Squares(ps + rest.placements)
    ensures !rest.Squares? ==> r == rest
  {
    if rest.Squares? then Squares(ps + rest.placements) else rest
  }

  /** The fields in order: a bad field is 400, a document without a package array panics, packages are scanned. */
  function Gather(fields: seq<Field>): Reply
    decreases |fields|, 0
  {
    if fields == [] then Squares([])
    else
      match fields[0]
      case Unreadable => Failed(BAD_REQUEST)
      case Text(Invalid) => Failed(BAD_REQUEST)
      case Text(Table(None)) => Panicked
      case Text(Table(Some(entries))) => ScanThen(entries, fields[1..])
  }

  /** The entries of one document, then the fields after it: undeserializable entries are skipped, a failing `cal` is 422. */
  function ScanThen(entries: seq<Entry>, rest: seq<Field>): Reply
    decreases |rest|, |entries| + 1
  {
    if entries == [] then Gather(rest)
    else
      match entries[0]
      case Undeserializable => ScanThen(entries[1..], rest)
      case Package(checksum) =>
        if !Sliceable(checksum) then Panicked
        else
          match Cal(checksum)
          case None => Failed(UNPROCESSABLE_ENTITY)
          case Some(p) => Prepend([p], ScanThen(entries[1..], rest))
  }

  /** `lockfile`: the gathered squares, or 400 when there are none. */
  function LockfileReply(fields: seq<Field>): (r: Reply)
    ensures r.Squares? ==> r.placements != []
  {
    var gathered := Gather(fields);
    if gathered == Squares([]) then Failed(BAD_REQUEST) else gathered
  }

  lemma PrependAssoc(ps: seq<Placement>, p: Placement, rest: Reply)
    ensures Prepend(ps, Prepend([p], rest)) == Prepend(ps + [p], rest)
  {
    if rest.Squares? {
      assert ps + ([p] + rest.placements) == (ps + [p]) + rest.placements;
    }
  }

  /**
   * `lockfile`: read the fields in order, stop at the first bad one, collect
   * the squares of every package whose checksum `cal` accepts, and stop
   * with 422 at the first it rejects.
   */
  method Lockfile(fields: seq<Field>) returns (r: Reply)
    ensures r == LockfileReply(fields)
  {
    var htmls: seq<Placement> := [];
    var i := 0;
    while i < |fields|
      invariant 0 <= i <= |fields|
      invariant Gather(fields) == Prepend(htmls, Gather(fields[i..]))
    {
      assert fields[i..][1..] == fields[i + 1..];
      match fields[i] {
      case Unreadable =>
        return Failed(BAD_REQUEST);
      case Text(Invalid) =>
        return Failed(BAD_REQUEST);
      case Text(Table(None)) =>
        return Panicked;
      case Text(Table(Some(packages))) =>
        var j := 0;
        while j < |packages|
          invariant 0 <= j <= |packages|
          invariant Gather(fields) == Prepend(htmls, ScanThen(packages[j..], fields[i + 1..]))
        {
          assert packages[j..][1..] == packages[j + 1..];
          match packages[j] {
          case Undeserializable =>
          case Package(checksum) =>
            if !Sliceable(checksum) {
              return Panicked;
            }
            var d := Cal(checksum);
            if d.None? {
              return Failed(UNPROCESSABLE_ENTITY);
            }
            PrependAssoc(htmls, d.value, ScanThen(packages[j + 1..], fields[i + 1..]));
            htmls := htmls + [d.value];
          }
          j := j + 1;
        }
        assert packages[j..] == [];
      }
      i := i + 1;
    }
    assert fields[i..] == [];
    if htmls == [] {
      return Failed(BAD_REQUEST);
    }
    return Squares(htmls);
  }

  /** Every field is a readable document with a package array. */
  predicate AllTables(fields: seq<Field>)
  {
    forall i :: 0 <= i < |fields| ==> fields[i].Text? && fields[i].document.Table? && fields[i].document.packages.Some?
  }

  /** Every checksum in a run of entries can be sliced. */
  predicate EntriesSliceable(entries: seq<Entry>)
  {
    forall i :: 0 <= i < |entries| && entries[i].Package? ==> Sliceable(entries[i].checksum)
  }

  lemma EntriesSliceableTail(entries: seq<Entry>)
    requires entries != [] && EntriesSliceable(entries)
    ensures EntriesSliceable(entries[1..])
  {
    forall i | 0 <= i < |entries[1..]| && entries[1..][i].Package?
      ensures Sliceable(entries[1..][i].checksum)
    {
      assert entries[1..][i] == entries[i + 1];
    }
  }

  /** What `cal` makes of each deserializable package of `entries`, in order. */
  function EntryResults(entries: seq<Entry>): (rs: seq<Option<Placement>>)
    requires EntriesSliceable(entries)
    ensures |rs| <= |entries|
  {
    if entries == [] then []
    else
      EntriesSliceableTail(entries);
      if entries[0].Undeserializable? then EntryResults(entries[1..])
      else [Cal(entries[0].checksum)] + EntryResults(entries[1..])
  }

  /** Every checksum of every field can be sliced. */
  predicate FieldsSliceable(fields: seq<Field>)
    requires AllTables(fields)
  {
    forall i :: 0 <= i < |fields| ==> EntriesSliceable(fields[i].document.packages.value)
  }

  lemma FieldsTail(fields: seq<Field>)
    requires fields != [] && AllTables(fields) && FieldsSliceable(fields)
    ensures AllTables(fields[1..]) && FieldsSliceable(fields[1..])
  {
    assert forall i :: 0 <= i < |fields[1..]| ==> fields[1..][i] == fields[i + 1];
  }

  /** What `cal` makes of each deserializable package of every field, in order. */
  function Results(fields: seq<Field>): seq<Option<Placement>>
    requires AllTables(fields) && FieldsSliceable(fields)
  {
    if fields == [] then []
    else
      FieldsTail(fields);
      EntryResults(fields[0].document.packages.value) + Results(fields[1..])
  }

  /** The reference outcome for a list of `cal` results: all the squares when every one succeeded, 422 otherwise. */
  function Expected(rs: seq<Option<Placement>>): Reply
  {
    if forall k :: 0 <= k < |rs| ==> rs[k].Some? then
      Squares(seq(|rs|, k requires 0 <= k < |rs| && rs[k].Some? => rs[k].value))
    else Failed(UNPROCESSABLE_ENTITY)
  }

  /** A failed first result makes the whole list 422. */
  lemma ExpectedConsRejects(r: Option<Placement>, rs: seq<Option<Placement>>)
    requires r.None?
    ensures Expected([r] + rs) == Failed(UNPROCESSABLE_ENTITY)
  {
    assert ([r] + rs)[0] == r;
  }

  /** A successful first result puts its square in front of the rest's outcome. */
  lemma ExpectedConsAccepts(r: Option<Placement>, rs: seq<Option<Placement>>)
    requires r.Some?
    ensures Expected([r] + rs) == Prepend([r.value], Expected(rs))
  {
    var all := [r] + rs;
    if forall k :: 0 <= k < |rs| ==> rs[k].Some? {
      assert forall k :: 0 <= k < |all| ==> all[k].Some? by {
        forall k | 0 <= k < |all| ensures all[k].Some? {
          if k > 0 {
            assert all[k] == rs[k - 1];
          }
        }
      }
      var squares := seq(|all|, k requires 0 <= k < |all| && all[k].Some? => all[k].value);
      var tail := seq(|rs|, k requires 0 <= k < |rs| && rs[k].Some? => rs[k].value);
      assert squares == [r.value] + tail by {
        forall k | 0 <= k < |all| ensures squares[k] == ([r.value] + tail)[k] {
          if k > 0 {
            assert all[k] == rs[k - 1];
          }
        }
      }
    } else {
      var k :| 0 <= k < |rs| && rs[k].None?;
      assert all[k + 1] == rs[k];
    }
  }

  /** Scanning one document's entries agrees with the reference outcome over their results followed by those of the rest. */
  lemma {:induction false} ScanThenExpected(entries: seq<Entry>, rest: seq<Field>, restResults: seq<Option<Placement>>)
    requires EntriesSliceable(entries)
    requires Gather(rest) == Expected(restResults)
    ensures ScanThen(entries, rest) == Expected(EntryResults(entries) + restResults)
    decreases |entries|
  {
    if entries == [] {
      assert EntryResults(entries) + restResults == restResults;
    } else {
      EntriesSliceableTail(entries);
      ScanThenExpected(entries[1..], rest, restResults);
      var tail := EntryResults(entries[1..]) + restResults;
      if entries[0].Package? {
        var r := Cal(entries[0].checksum);
        assert EntryResults(entries) == [r] + EntryResults(entries[1..]);
        assert EntryResults(entries) + restResults == [r] + tail;
        if r.None? {
          assert ScanThen(entries, rest) == Failed(UNPROCESSABLE_ENTITY);
          ExpectedConsRejects(r, tail);
        } else {
          assert ScanThen(entries, rest) == Prepend([r.value], ScanThen(entries[1..], rest));
          ExpectedConsAccepts(r, tail);
        }
      } else {
        assert ScanThen(entries, rest) == ScanThen(entries[1..], rest);
        assert EntryResults(entries) == EntryResults(entries[1..]);
      }
    }
  }

  /** Over documents that all hold package arrays, gathering agrees with the reference outcome. */
  lemma {:induction false} GatherExpected(fields: seq<Field>)
    requires AllTables(fields) && FieldsSliceable(fields)
    ensures Gather(fields) == Expected(Results(fields))
  {
    if fields != [] {
      var rest := fields[1..];
      FieldsTail(fields);
      GatherExpected(rest);
      ScanThenExpected(fields[0].document.packages.value, rest, Results(rest));
    }
  }

  /**
   * The lockfile answer over readable documents with package arrays: the
   * squares of every deserializable package in order when `cal` accepts
   * them all and there is one at least, 422 when it rejects one, 400 when
   * there is no package to draw.
   */
  lemma LockfileMeaning(fields: seq<Field>)
    requires AllTables(fields) && FieldsSliceable(fields)
    ensures var rs := Results(fields);
      (exists k :: 0 <= k < |rs| && rs[k].None?) ==> LockfileReply(fields) == Failed(UNPROCESSABLE_ENTITY)
    ensures Results(fields) == [] ==> LockfileReply(fields) == Failed(BAD_REQUEST)
    ensures var rs := Results(fields);
      rs != [] && (forall k :: 0 <= k < |rs| ==> rs[k].Some?) ==>
        LockfileReply(fields).Squares? &&
        |LockfileReply(fields).placements| == |rs| &&
        forall k :: 0 <= k < |rs| ==> LockfileReply(fields).placements[k] == rs[k].value
  {
    GatherExpected(fields);
  }

  /** The results of one document: a `cal` result for each deserializable package and nothing for the others. */
  lemma {:induction false} EntryResultsMeaning(entries: seq<Entry>)
    requires EntriesSliceable(entries)
    ensures forall r :: r in EntryResults(entries) ==>
      exists i :: 0 <= i < |entries| && entries[i].Package? && r == Cal(entries[i].checksum)
    ensures (forall i :: 0 <= i < |entries| ==> entries[i].Undeserializable?) ==> EntryResults(entries) == []
  {
    if entries != [] {
      EntriesSliceableTail(entries);
      EntryResultsMeaning(entries[1..]);
      forall r | r in EntryResults(entries)
        ensures exists i :: 0 <= i < |entries| && entries[i].Package? && r == Cal(entries[i].checksum)
      {
        if r in EntryResults(entries[1..]) {
          var j :| 0 <= j < |entries[1..]| && entries[1..][j].Package? && r == Cal(entries[1..][j].checksum);
          assert entries[j + 1] == entries[1..][j];
        }
      }
      if forall i :: 0 <= i < |entries| ==> entries[i].Undeserializable? {
        assert forall i :: 0 <= i < |entries[1..]| ==> entries[1..][i] == entries[i + 1];
      }
    }
  }

  /** A first field that cannot be read, or is not TOML, is a bad request whatever follows. */
  lemma BadFirstField(fields: seq<Field>)
    requires fields != [] && (fields[0] == Unreadable || fields[0] == Text(Invalid))
    ensures LockfileReply(fields) == Failed(BAD_REQUEST)
  {
  }
}
