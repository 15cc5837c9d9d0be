/**
 * The page tokens and the pagination rule of the quote list in
 * src/day_19.rs. A token is the page number written as sixteen upper-case
 * hex digits of its two's-complement `u64`; a page holds three quotes.
 * The database is not part of this model: the number of stored quotes is
 * a parameter.
 */
module Quotes {
  import opened Wrappers
  import Radix

  const I64_LIMIT: int := 0x8000_0000_0000_0000

  /** A signed 64-bit integer (`i64`). */
  type I64 = x: int | -I64_LIMIT <= x < I64_LIMIT

  const PAGE_SIZE: nat := 3

  /** `page as u64`: the two's-complement bits of `page`. */
  function AsU64(page: I64): (u: U64)
    ensures (u - page) % U64_LIMIT == 0
    ensures page >= 0 <==> u < I64_LIMIT
  {
    if page < 0 then page + U64_LIMIT else page
  }

  /** `parsed as i64`: the `u64` bits read as a signed number. */
  function AsI64(u: U64): (page: I64)
    ensures (u - page) % U64_LIMIT == 0
    ensures page < 0 <==> u >= I64_LIMIT
  {
    if u < I64_LIMIT then u else u - U64_LIMIT
  }

  /** The two reinterpretations undo each other. */
  lemma Reinterpret(page: I64, u: U64)
    ensures AsI64(AsU64(page)) == page
    ensures AsU64(AsI64(u)) == u
  {
  }

  /** Arithmetic on `i64` without overflow checks: the result wraps modulo 2^64. */
  function Wrap(x: int): (r: I64)
    ensures (r - x) % U64_LIMIT == 0
    ensures -I64_LIMIT <= x < I64_LIMIT ==> r == x
  {
    var low := x % U64_LIMIT;
    if low < I64_LIMIT then low else low - U64_LIMIT
  }

  lemma Pow16Sixteen()
    ensures Radix.Pow(16, 16) == U64_LIMIT
  {
    assert Radix.Pow(16, 4) == 0x1_0000;
    assert Radix.Pow(16, 8) == 0x1_0000_0000 by {
      assert Radix.Pow(16, 6) == 0x100_0000;
    }
    assert Radix.Pow(16, 12) == 0x1_0000_0000_0000 by {
      assert Radix.Pow(16, 10) == 0x100_0000_0000;
    }
    assert Radix.Pow(16, 14) == 0x100_0000_0000_0000;
  }

  /** `encode_page`: sixteen upper-case hex digits that denote `page as u64`. */
  function EncodePage(page: I64): (token: string)
    ensures |token| == 16
    ensures forall i :: 0 <= i < 16 ==> '0' <= token[i] <= '9' || 'A' <= token[i] <= 'F'
    ensures Radix.AllDigits(token, 16) && Radix.Value(token, 16) == AsU64(page)
  {
    Pow16Sixteen();
    Radix.UpperHexValue(AsU64(page), 16);
    Radix.UpperHex(AsU64(page), 16)
  }

  /**
   * `decode_page`: the token read as a base-16 `u64` (optional '+', at
   * least one digit of either case, no overflow), reinterpreted as `i64`.
   */
  function DecodePage(token: string): (page: Option<I64>)
    ensures token == [] || token == "+" ==> page == None
    ensures page.Some? ==> Radix.AllDigits(Radix.Digits(token), 16)
    ensures page.Some? ==> (page.value < 0 <==> Radix.Value(Radix.Digits(token), 16) >= I64_LIMIT)
    ensures page.Some? <==> var digits := Radix.Digits(token);
      digits != [] && Radix.AllDigits(digits, 16) && Radix.Value(digits, 16) < U64_LIMIT
    ensures page.Some? ==> page.value == AsI64(Radix.Value(Radix.Digits(token), 16))
  {
    match Radix.Parse(token, 16, U64_LIMIT)
    case None => None
    case Some(parsed) => Some(AsI64(parsed))
  }

  /** Tokens `encode_page` never writes still decode: lower case, a '+' sign, fewer digits. */
  lemma DecodeExamples()
    ensures DecodePage("a") == Some(10)
    ensures DecodePage("+1") == Some(1)
    ensures DecodePage("0001") == Some(1)
  {
    assert Radix.Digits("+1") == "1";
    assert Radix.Value("a", 16) == 10;
    assert Radix.Value("0001", 16) == 1 by {
      assert "0001"[..3] == "000" && "000"[..2] == "00" && "00"[..1] == "0";
      assert Radix.Value("000", 16) == 0;
    }
  }

  /** Every page number survives the token round trip, negative ones included. */
  lemma DecodeEncode(page: I64)
    ensures DecodePage(EncodePage(page)) == Some(page)
  {
    Pow16Sixteen();
    Radix.ParseUpperHex(AsU64(page), 16, U64_LIMIT);
  }

  /** A token with a character that is not a hex digit (besides a leading '+') is rejected. */
  lemma DecodeRejectsNonHex(token: string, i: nat)
    requires i < |token| && Radix.DigitValue(token[i], 16) == None
    requires !(i == 0 && token[0] == '+')
    ensures DecodePage(token) == None
  {
    Radix.ParseRejectsNonDigit(token, 16, U64_LIMIT, i);
  }

  /** A hex token whose value does not fit a `u64` is rejected. */
  lemma DecodeRejectsTooLarge(token: string)
    requires Radix.Digits(token) != [] && Radix.AllDigits(Radix.Digits(token), 16)
    requires Radix.Value(Radix.Digits(token), 16) >= U64_LIMIT
    ensures DecodePage(token) == None
  {
    Radix.ParseRejectsOverflow(token, 16, U64_LIMIT);
  }

  /** What `list` answers with besides the quotes themselves. */
  datatype Listing = Listing(page: I64, offset: I64, nextToken: Option<string>)

  /**
   * The arithmetic of `list`: the page is 0 without a token and the decoded
   * token otherwise (400 when it does not decode); the offset is three
   * quotes per page, and the database refuses a negative offset, which the
   * handler also answers with 400; a next token is issued unless the page
   * reaches the end of the `count` stored quotes; the reported page counts
   * from 1.
   */
  function ListPage(token: Option<string>, count: I64): (r: Result<Listing, nat>)
    ensures r.Err? <==>
      token.Some? && (DecodePage(token.value).None? || Wrap(DecodePage(token.value).value * PAGE_SIZE) < 0)
    ensures r.Err? ==> r.error == 400
    ensures r.Ok? ==> 0 <= r.value.offset
    ensures token.None? ==> r.Ok? && r.value.page == 1 && r.value.offset == 0
    ensures r.Ok? && r.value.nextToken.Some? ==> DecodePage(r.value.nextToken.value) == Some(r.value.page)
  {
    var pageNumber :=
      if token.None? then Some(0) else DecodePage(token.value);
    match pageNumber
    case None => Err(400)
    case Some(pageNumber) =>
      var offset := Wrap(pageNumber * PAGE_SIZE);
      DecodeEncode(Wrap(pageNumber + 1));
      var nextToken :=
        if Wrap(offset + PAGE_SIZE) >= count then None
        else Some(EncodePage(Wrap(pageNumber + 1)));
      if offset < 0 then Err(400)
      else Ok(Listing(Wrap(pageNumber + 1), offset, nextToken))
  }

  /**
   * For a non-negative page whose offset arithmetic does not overflow: the
   * offset is three times the page, and a next token exists exactly when
   * quotes remain after this page.
   */
  lemma NextPageRule(token: string, count: I64)
    requires DecodePage(token).Some?
    requires 0 <= DecodePage(token).value
    requires DecodePage(token).value * PAGE_SIZE + PAGE_SIZE < I64_LIMIT
    ensures ListPage(Some(token), count).Ok?
    ensures ListPage(Some(token), count).value.offset == DecodePage(token).value * PAGE_SIZE
    ensures ListPage(Some(token), count).value.page == DecodePage(token).value + 1
    ensures ListPage(Some(token), count).value.nextToken.None?
        <==> DecodePage(token).value * PAGE_SIZE + PAGE_SIZE >= count
  {
    var page := DecodePage(token).value;
    assert Wrap(page * PAGE_SIZE) == page * PAGE_SIZE;
    assert Wrap(page * PAGE_SIZE + PAGE_SIZE) == page * PAGE_SIZE + PAGE_SIZE;
    assert Wrap(page + 1) == page + 1;
  }

  /**
   * Following the next token moves one page on: the page reached is the
   * one after the page that issued the token, and its offset is three
   * quotes further, as long as that arithmetic does not overflow.
   */
  lemma FollowToken(token: Option<string>, count: I64)
    requires ListPage(token, count).Ok? && ListPage(token, count).value.nextToken.Some?
    requires 0 <= ListPage(token, count).value.page * PAGE_SIZE + PAGE_SIZE < I64_LIMIT
    ensures var here := ListPage(token, count).value;
      var there := ListPage(here.nextToken, count);
      there.Ok? && there.value.page == here.page + 1 && there.value.offset == here.offset + PAGE_SIZE
  {
    var here := ListPage(token, count).value;
    var page := if token.None? then 0 else DecodePage(token.value).value;
    assert here == Listing(Wrap(page + 1), Wrap(page * PAGE_SIZE), here.nextToken);
    assert here.nextToken == Some(EncodePage(here.page));
    NoWrapBelow(page, here.page);
    DecodeEncode(here.page);
    var there := ListPage(here.nextToken, count);
    assert there.value.page == Wrap(here.page + 1) && there.value.offset == Wrap(here.page * PAGE_SIZE);
  }

  /** When the page after `page` has a non-negative offset that fits, neither step wrapped. */
  lemma NoWrapBelow(page: I64, next: I64)
    requires next == Wrap(page + 1) && 0 <= next * PAGE_SIZE + PAGE_SIZE < I64_LIMIT
    ensures next == page + 1
    ensures Wrap(page * PAGE_SIZE) == page * PAGE_SIZE && Wrap(page * PAGE_SIZE) + PAGE_SIZE == next * PAGE_SIZE
    ensures Wrap(next + 1) == next + 1 && Wrap(next * PAGE_SIZE) == next * PAGE_SIZE
  {
  }

  /**
   * A token for a negative page whose offset does not overflow is refused
   * with 400: the offset it leads to is negative.
   */
  lemma NegativePageRefused(token: string, count: I64)
    requires DecodePage(token).Some? && DecodePage(token).value < 0
    requires -I64_LIMIT <= DecodePage(token).value * PAGE_SIZE
    ensures ListPage(Some(token), count) == Err(400)
  {
    var page := DecodePage(token).value;
    assert Wrap(page * PAGE_SIZE) == page * PAGE_SIZE;
  }

  /** The first listing: no token means page 0, and a next token exactly when more than three quotes are stored. */
  lemma FirstPage(count: I64)
    ensures ListPage(None, count).Ok?
    ensures ListPage(None, count).value.nextToken.Some? <==> count > PAGE_SIZE
    ensures ListPage(None, count).value.nextToken.Some? ==>
      ListPage(None, count).value.nextToken.value == EncodePage(1)
  {
  }

  /**
   * The token of page -1 is all F's: negative pages print as two's
   * complement, and listing with that token is refused.
   */
  lemma NegativeToken(count: I64)
    ensures EncodePage(-1) == "FFFFFFFFFFFFFFFF"
    ensures DecodePage("FFFFFFFFFFFFFFFF") == Some(-1)
    ensures ListPage(Some("FFFFFFFFFFFFFFFF"), count) == Err(400)
  {
    AllF(16);
    Pow16Sixteen();
    assert "FFFFFFFFFFFFFFFF" == seq(16, _ => 'F');
    DecodeEncode(-1);
    NegativePageRefused("FFFFFFFFFFFFFFFF", count);
  }

  /** The hex digits of 16^n - 1 are n F's. */
  lemma {:induction false} AllF(n: nat)
    ensures Radix.UpperHex(Radix.Pow(16, n) - 1, n) == seq(n, _ => 'F')
  {
    if n > 0 {
      var x := Radix.Pow(16, n) - 1;
      Radix.DivUnique(x, 16, Radix.Pow(16, n - 1) - 1, 15);
      AllF(n - 1);
    }
  }
}
