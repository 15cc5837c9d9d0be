/**
 * The milk bucket of src/day_9.rs: a level (byte 0) and a millisecond
 * timestamp with its low byte dropped (bytes 1..7) share one `u64` word,
 * which a withdrawal replaces in one atomic step and `refill` overwrites.
 */
module MilkBucket {
  import opened Wrappers
  import Radix

  const MAX_BUCKET_SIZE: nat := 5
  const REFILL_TIME_MS: nat := 1000
  const SINGLE_WITHDRAWAL_MILK: nat := 1

  /** The `n` low bytes of `w`, least significant first (`to_le_bytes` for n == 8). */
  function LeBytes(w: nat, n: nat): (bytes: seq<Byte>)
    ensures |bytes| == n
  {
    if n == 0 then [] else [w % 256] + LeBytes(w / 256, n - 1)
  }

  /** The number whose little-endian bytes are `bytes` (`from_le_bytes`). */
  function FromLe(bytes: seq<Byte>): (w: nat)
    ensures w < Radix.Pow(256, |bytes|)
  {
    if bytes == [] then 0
    else
      var rest := FromLe(bytes[1..]);
      Radix.AppendDigitBound(rest, bytes[0], 256, Radix.Pow(256, |bytes| - 1));
      bytes[0] + 256 * rest
  }

  /** Reading back the bytes of a number that fits in `n` bytes gives the number. */
  lemma {:induction false} FromLeBytes(w: nat, n: nat)
    requires w < Radix.Pow(256, n)
    ensures FromLe(LeBytes(w, n)) == w
  {
    if n > 0 {
      var bytes := LeBytes(w, n);
      assert bytes[1..] == LeBytes(w / 256, n - 1);
      FromLeBytes(w / 256, n - 1);
    }
  }

  /** Writing out the number of `bytes` gives the bytes back. */
  lemma {:induction false} LeBytesFrom(bytes: seq<Byte>)
    ensures LeBytes(FromLe(bytes), |bytes|) == bytes
  {
    if bytes != [] {
      var w := FromLe(bytes);
      Radix.DivUnique(w, 256, FromLe(bytes[1..]), bytes[0]);
      LeBytesFrom(bytes[1..]);
    }
  }

  lemma Pow256Eight()
    ensures Radix.Pow(256, 8) == U64_LIMIT && Radix.Pow(256, 7) == 0x100_0000_0000_0000
  {
    assert Radix.Pow(256, 2) == 0x1_0000;
    assert Radix.Pow(256, 4) == 0x1_0000_0000 by {
      assert Radix.Pow(256, 3) == 0x100_0000;
    }
    assert Radix.Pow(256, 6) == 0x1_0000_0000_0000 by {
      assert Radix.Pow(256, 5) == 0x100_0000_0000;
    }
  }

  /** The word `encode_state(size, ts)`: byte 0 is `size`, bytes 1..7 are those of `ts`. */
  function StateWord(size: Byte, ts: U64): (w: U64)
    ensures LeBytes(w, 8) == [size] + LeBytes(ts, 8)[1..]
  {
    Pow256Eight();
    var bytes := [size] + LeBytes(ts, 8)[1..];
    LeBytesFrom(bytes);
    FromLe(bytes)
  }

  /** The level `decode_state` reads: byte 0. */
  function Level(w: U64): (size: Byte)
    ensures size == w % 256
  {
    LeBytes(w, 8)[0]
  }

  /** The timestamp `decode_state` reads: the word with byte 0 cleared. */
  function Stamp(w: U64): (ts: U64)
    ensures LeBytes(ts, 8) == [0] + LeBytes(w, 8)[1..]
  {
    Pow256Eight();
    var bytes := [0] + LeBytes(w, 8)[1..];
    LeBytesFrom(bytes);
    FromLe(bytes)
  }

  /** As numbers: the timestamp is `w` rounded down to a multiple of 256, and the state word adds the level to `ts` rounded down. */
  lemma {:induction false} StateArithmetic(size: Byte, ts: U64, w: U64)
    ensures Stamp(w) == w - w % 256
    ensures StateWord(size, ts) == size + (ts - ts % 256)
  {
    Pow256Eight();
    var lw := LeBytes(w, 8);
    assert FromLe([0] + lw[1..]) == 256 * FromLe(lw[1..]) by {
      assert ([0] + lw[1..])[1..] == lw[1..];
    }
    assert lw[1..] == LeBytes(w / 256, 7);
    FromLeBytes(w / 256, 7);
    var lt := LeBytes(ts, 8);
    assert FromLe([size] + lt[1..]) == size + 256 * FromLe(lt[1..]) by {
      assert ([size] + lt[1..])[1..] == lt[1..];
    }
    assert lt[1..] == LeBytes(ts / 256, 7);
    FromLeBytes(ts / 256, 7);
  }

  /** decode_state(encode_state(size, ts)) == (size, ts with its low byte cleared). */
  lemma DecodeEncode(size: Byte, ts: U64)
    ensures Level(StateWord(size, ts)) == size
    ensures Stamp(StateWord(size, ts)) == ts - ts % 256
  {
    StateArithmetic(size, ts, StateWord(size, ts));
  }

  /** encode_state(decode_state(w)) == w: the two fields hold the whole word. */
  lemma EncodeDecode(w: U64)
    ensures StateWord(Level(w), Stamp(w)) == w
  {
    StateArithmetic(Level(w), Stamp(w), w);
  }

  /** The round trip in the source's own test: level 10 and a timestamp that is a multiple of 256. */
  lemma TestRoundTrip()
    ensures Level(StateWord(10, 1_614_000_000_000)) == 10
    ensures Stamp(StateWord(10, 1_614_000_000_000)) == 1_614_000_000_000
  {
    DecodeEncode(10, 1_614_000_000_000);
  }

  /** `encode_state`: copy bytes 1..7 of the timestamp into a zeroed buffer, set byte 0 to the level, read the buffer back. */
  method EncodeState(bucketSize: Byte, timestampMs: U64) returns (w: U64)
    ensures w == StateWord(bucketSize, timestampMs)
  {
    var encoded := new Byte[8](_ => 0);
    var tsBytes := LeBytes(timestampMs, 8);
    for idx := 1 to 8
      invariant encoded[0] == 0
      invariant forall i :: 1 <= i < idx ==> encoded[i] == tsBytes[i]
    {
      encoded[idx] := tsBytes[idx];
    }
    encoded[0] := bucketSize;
    assert encoded[..] == [bucketSize] + tsBytes[1..];
    Pow256Eight();
    w := FromLe(encoded[..]);
  }

  /** `decode_state`: byte 0 is the level; clearing it leaves the timestamp. */
  method DecodeState(state: U64) returns (bucketSize: Byte, timestampMs: U64)
    ensures bucketSize == Level(state) && timestampMs == Stamp(state)
  {
    var bytes := new Byte[8](i requires 0 <= i < 8 => LeBytes(state, 8)[i]);
    bucketSize := bytes[0];
    bytes[0] := 0;
    assert bytes[..] == [0] + LeBytes(state, 8)[1..];
    Pow256Eight();
    timestampMs := FromLe(bytes[..]);
  }

  /** Whole refill periods since `elapsed` ms, capped at the bucket size. */
  function RefillUnits(elapsed: nat): (units: nat)
    ensures units <= MAX_BUCKET_SIZE
    ensures units == 0 <==> elapsed < REFILL_TIME_MS
  {
    if elapsed / REFILL_TIME_MS < MAX_BUCKET_SIZE then elapsed / REFILL_TIME_MS else MAX_BUCKET_SIZE
  }

  /**
   * What the withdrawal needs to run without a panic: the clock is not
   * behind the stored timestamp (`now - old_ts` on `u64`), and the level
   * plus the refill fits a `u8`.
   */
  predicate CanWithdraw(prev: U64, now: U64)
  {
    Stamp(prev) <= now && Level(prev) + RefillUnits(now - Stamp(prev)) < 256
  }

  /**
   * The closure passed to `fetch_update` in `milk`: refill by whole seconds
   * elapsed (at most 5), refuse when the bucket is empty and nothing was
   * refilled, otherwise take one unit and stamp the word with `now`.
   */
  function Withdraw(prev: U64, now: U64): (r: Option<U64>)
    requires CanWithdraw(prev, now)
    ensures r.None? <==> Level(prev) == 0 && now - Stamp(prev) < REFILL_TIME_MS
    ensures r.Some? ==> Stamp(r.value) == now - now % 256
    ensures r.Some? ==> var filled := Level(prev) + RefillUnits(now - Stamp(prev));
      Level(r.value) == (if filled < MAX_BUCKET_SIZE then filled else MAX_BUCKET_SIZE) - SINGLE_WITHDRAWAL_MILK
    ensures r.Some? && Level(prev) <= MAX_BUCKET_SIZE ==> Level(r.value) < MAX_BUCKET_SIZE
  {
    var size, ts := Level(prev), Stamp(prev);
    var delta := RefillUnits(now - ts);
    if size == 0 && delta == 0 then None
    else
      var capped := if size + delta < MAX_BUCKET_SIZE then size + delta else MAX_BUCKET_SIZE;
      var newSize := if capped >= SINGLE_WITHDRAWAL_MILK then capped - SINGLE_WITHDRAWAL_MILK else 0;
      DecodeEncode(newSize, now);
      Some(StateWord(newSize, now))
  }

  /**
   * Withdrawals at the instant the level was stamped: one unit comes out
   * while any is left, and an empty bucket refuses.
   */
  lemma WithdrawSameInstant(level: Byte, t: U64)
    requires level <= MAX_BUCKET_SIZE
    ensures CanWithdraw(StateWord(level, t), t)
    ensures level == 0 ==> Withdraw(StateWord(level, t), t) == None
    ensures level > 0 ==> Withdraw(StateWord(level, t), t) == Some(StateWord(level - 1, t))
  {
    DecodeEncode(level, t);
    if level > 0 {
      var w := Withdraw(StateWord(level, t), t).value;
      EncodeDecode(w);
      DecodeEncode(level - 1, t);
      DecodeEncode(Level(w), Stamp(w));
    }
  }

  /** A full bucket serves exactly five withdrawals at one instant; the sixth finds it empty. */
  lemma FiveWithdrawals(t: U64)
    ensures CanWithdraw(StateWord(5, t), t) && Withdraw(StateWord(5, t), t) == Some(StateWord(4, t))
    ensures CanWithdraw(StateWord(4, t), t) && Withdraw(StateWord(4, t), t) == Some(StateWord(3, t))
    ensures CanWithdraw(StateWord(3, t), t) && Withdraw(StateWord(3, t), t) == Some(StateWord(2, t))
    ensures CanWithdraw(StateWord(2, t), t) && Withdraw(StateWord(2, t), t) == Some(StateWord(1, t))
    ensures CanWithdraw(StateWord(1, t), t) && Withdraw(StateWord(1, t), t) == Some(StateWord(0, t))
    ensures CanWithdraw(StateWord(0, t), t) && Withdraw(StateWord(0, t), t) == None
  {
    WithdrawSameInstant(5, t);
    WithdrawSameInstant(4, t);
    WithdrawSameInstant(3, t);
    WithdrawSameInstant(2, t);
    WithdrawSameInstant(1, t);
    WithdrawSameInstant(0, t);
  }

  /**
   * The refill arithmetic from an empty bucket stamped at time 0: at
   * 500 ms nothing is available; at 1000 ms one unit refills and is taken;
   * at 5000 ms five refill and one is taken, leaving four.
   */
  lemma RefillExamples()
    ensures CanWithdraw(StateWord(0, 0), 500) && Withdraw(StateWord(0, 0), 500) == None
    ensures CanWithdraw(StateWord(0, 0), 1000) && Withdraw(StateWord(0, 0), 1000).Some?
    ensures Level(Withdraw(StateWord(0, 0), 1000).value) == 0
    ensures CanWithdraw(StateWord(0, 0), 5000) && Withdraw(StateWord(0, 0), 5000).Some?
    ensures Level(Withdraw(StateWord(0, 0), 5000).value) == 4
  {
    DecodeEncode(0, 0);
  }

  /** The global `BUCKET_STATE` word. */
  class Bucket {
    var state: U64

    /** The level never exceeds the bucket size. */
    ghost predicate Valid()
      reads this
    {
      Level(state) <= MAX_BUCKET_SIZE
    }

    /** `AtomicU64::new(0)`: an empty bucket stamped at time 0. */
    constructor()
      ensures state == 0 && Valid()
    {
      state := 0;
    }

    /**
     * `milk` without a JSON body: one atomic withdrawal at time `now`;
     * 429 and an unchanged word when no milk is available, otherwise the
     * new word is stored and the answer is 200.
     */
    method Milk(now: U64) returns (status: nat, body: string)
      requires Valid() && CanWithdraw(state, now)
      modifies this
      ensures Valid()
      ensures Withdraw(old(state), now).None? ==> state == old(state) && status == 429 && body == "No milk available\n"
      ensures Withdraw(old(state), now).Some? ==>
        state == Withdraw(old(state), now).value && status == 200 && body == "Milk withdrawn\n"
    {
      var next := Withdraw(state, now);
      if next.None? {
        return 429, "No milk available\n";
      }
      state := next.value;
      return 200, "Milk withdrawn\n";
    }

    /** `refill`: overwrite the word with a full bucket stamped `now`. */
    method Refill(now: U64) returns (status: nat)
      modifies this
      ensures state == StateWord(MAX_BUCKET_SIZE, now) && Valid()
      ensures Level(state) == MAX_BUCKET_SIZE && Stamp(state) == now - now % 256
      ensures status == 200
    {
      state := EncodeState(MAX_BUCKET_SIZE, now);
      DecodeEncode(MAX_BUCKET_SIZE, now);
      status := 200;
    }
  }
}
