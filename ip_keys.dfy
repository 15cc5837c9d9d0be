/**
 * The address "encryption" of src/day_2.rs: an IPv4 destination is the
 * source address plus a key, octet by octet with wrap-around, and the key
 * is recovered by subtracting; for IPv6 both directions XOR the octets.
 * Addresses are their octet sequences; parsing and printing them is not
 * part of this model.
 */
module IpKeys {

  import opened Wrappers

  /** The four octets of an `Ipv4Addr`. */
  type Ipv4 = s: seq<Byte> | |s| == 4 witness [0, 0, 0, 0]

  /** An IPv6 octet: XOR is a bit operation. */
  type Octet = bv8

  /** The sixteen octets of an `Ipv6Addr`. */
  type Ipv6 = s: seq<Octet> | |s| == 16 witness seq(16, _ => 0)

  /** `u8::overflowing_add(a, b).0`: the sum, less 256 when it overflows. */
  function WrappingAdd(a: Byte, b: Byte): (r: Byte)
    ensures r == (a as int + b) % 256
  {
    if a + b < 256 then a + b else a + b - 256
  }

  /** `u8::overflowing_sub(a, b).0`: the difference, plus 256 when it underflows. */
  function WrappingSub(a: Byte, b: Byte): (r: Byte)
    ensures r == (a as int - b) % 256
  {
    if a >= b then a - b else a - b + 256
  }

  /** `dest`: each octet of `from` plus the same octet of `key`, wrapping. */
  function Dest(from: Ipv4, key: Ipv4): (to: Ipv4)
    ensures forall i :: 0 <= i < 4 ==> to[i] == (from[i] as int + key[i]) % 256
  {
    [WrappingAdd(from[0], key[0]), WrappingAdd(from[1], key[1]),
     WrappingAdd(from[2], key[2]), WrappingAdd(from[3], key[3])]
  }

  /** `key`: each octet of `to` minus the same octet of `from`, wrapping. */
  function Key(from: Ipv4, to: Ipv4): (key: Ipv4)
    ensures forall i :: 0 <= i < 4 ==> key[i] == (to[i] as int - from[i]) % 256
  {
    [WrappingSub(to[0], from[0]), WrappingSub(to[1], from[1]),
     WrappingSub(to[2], from[2]), WrappingSub(to[3], from[3])]
  }

  /** The key that `key` recovers from a destination is the key that produced it. */
  lemma KeyOfDest(from: Ipv4, key: Ipv4)
    ensures Key(from, Dest(from, key)) == key
  {
  }

  /** Adding the recovered key to the source gives the destination back. */
  lemma DestOfKey(from: Ipv4, to: Ipv4)
    ensures Dest(from, Key(from, to)) == to
  {
  }

  /** Octet-wise exclusive or of two equally long octet sequences. */
  function Xor(a: seq<Octet>, b: seq<Octet>): (r: seq<Octet>)
    requires |a| == |b|
    ensures |r| == |a|
  {
    seq(|a|, i requires 0 <= i < |a| => a[i] ^ b[i])
  }

  /** Exclusive or with the same sequence twice cancels out. */
  lemma XorCancels(a: seq<Octet>, b: seq<Octet>)
    requires |a| == |b|
    ensures Xor(Xor(a, b), b) == a
    ensures Xor(Xor(a, b), a) == b
  {
  }

  /**
   * The loop shared by `v6_dest` and `v6_key`: walk the two addresses'
   * octets in step and store each exclusive or into a zeroed segment array.
   */
  method XorSegments(first: Ipv6, second: Ipv6) returns (r: Ipv6)
    ensures forall i :: 0 <= i < 16 ==> r[i] == first[i] ^ second[i]
    ensures r == Xor(first, second)
  {
    var segments := new Octet[16](_ => 0);
    var idx := 0;
    while idx < 16
      invariant 0 <= idx <= 16
      invariant forall i :: 0 <= i < idx ==> segments[i] == first[i] ^ second[i]
    {
      var value := first[idx] ^ second[idx];
      segments[idx] := value;
      idx := idx + 1;
    }
    r := segments[..];
  }

  /** `v6_dest`: each octet of `from` XOR the same octet of `key`. */
  method V6Dest(from: Ipv6, key: Ipv6) returns (to: Ipv6)
    ensures to == Xor(from, key)
  {
    to := XorSegments(from, key);
  }

  /** `v6_key`: each octet of `to` XOR the same octet of `from`. */
  method V6Key(from: Ipv6, to: Ipv6) returns (key: Ipv6)
    ensures key == Xor(to, from)
  {
    key := XorSegments(to, from);
  }

  /**
   * The IPv6 inverse laws on what the handlers compute: `v6_key` applied
   * to the result of `v6_dest` gives the key back, and `v6_dest` with a
   * key from `v6_key` reaches the destination again.
   */
  lemma V6Inverse(from: Ipv6, key: Ipv6, to: Ipv6)
    ensures Xor(Xor(from, key), from) == key
    ensures Xor(from, Xor(to, from)) == to
  {
    XorCancels(key, from);
    assert Xor(from, key) == Xor(key, from);
    XorCancels(to, from);
    assert Xor(from, Xor(to, from)) == Xor(Xor(to, from), from);
  }
}
