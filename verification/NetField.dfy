/** Fixed-width fields in network byte order (field_op.hpp). A value is converted with htonl/htonll
    and copied to memory byte by byte; on either kind of host the bytes come out most significant
    first, the order of Appendix B of RFC 791. */
module NetField {
  import opened Basics

  datatype Endian = Little | Big

  function Pow256(n: nat): nat {
    if n == 0 then 1 else 256 * Pow256(n - 1)
  }

  /** The n low bytes of v, most significant first. */
  function Be(v: nat, n: nat): (s: seq<byte>)
    ensures |s| == n
  {
    if n == 0 then [] else Be(v / 256, n - 1) + [v % 256]
  }

  /** The n low bytes of v, least significant first. */
  function Le(v: nat, n: nat): (s: seq<byte>)
    ensures |s| == n
  {
    if n == 0 then [] else [v % 256] + Le(v / 256, n - 1)
  }

  function FromBe(s: seq<byte>): nat {
    if s == [] then 0 else 256 * FromBe(s[..|s| - 1]) + s[|s| - 1]
  }

  function FromLe(s: seq<byte>): nat {
    if s == [] then 0 else s[0] + 256 * FromLe(s[1..])
  }

  /** The bytes of an n-byte integer in memory, and back. */
  function Store(host: Endian, v: nat, n: nat): seq<byte> {
    if host.Little? then Le(v, n) else Be(v, n)
  }

  function Load(host: Endian, s: seq<byte>): nat {
    if host.Little? then FromLe(s) else FromBe(s)
  }

  /** htonl and ntohl reverse the four bytes on a little-endian host. */
  function Htonl(host: Endian, v: nat): nat {
    if host.Little? then FromBe(Le(v, 4)) else v
  }

  /** htonll and ntohll: the two halves are converted and exchanged. */
  function Htonll(host: Endian, v: nat): nat {
    if host.Little? then Htonl(host, v % TWO_32) * TWO_32 + Htonl(host, v / TWO_32) else v
  }

  // ---------- Byte lists and numbers ----------

  lemma {:induction false} BeRoundTrip(v: nat, n: nat)
    requires v < Pow256(n)
    ensures FromBe(Be(v, n)) == v
  {
    if n > 0 {
      BeRoundTrip(v / 256, n - 1);
      assert Be(v, n)[..n - 1] == Be(v / 256, n - 1);
    }
  }

  lemma {:induction false} FromBeRoundTrip(s: seq<byte>)
    ensures Be(FromBe(s), |s|) == s
    ensures FromBe(s) < Pow256(|s|)
  {
    if s != [] {
      var n := |s| - 1;
      FromBeRoundTrip(s[..n]);
      BeSnoc(FromBe(s[..n]), s[n], n);
      assert s == s[..n] + [s[n]];
    }
  }

  lemma {:induction false} FromLeRoundTrip(s: seq<byte>)
    ensures Le(FromLe(s), |s|) == s
    ensures FromLe(s) < Pow256(|s|)
  {
    if s != [] {
      FromLeRoundTrip(s[1..]);
      LeCons(FromLe(s[1..]), s[0], |s| - 1);
      assert s == [s[0]] + s[1..];
    }
  }

  function Reverse(s: seq<byte>): (r: seq<byte>)
    ensures |r| == |s| && forall i | 0 <= i < |s| :: r[i] == s[|s| - 1 - i]
  {
    if s == [] then [] else [s[|s| - 1]] + Reverse(s[..|s| - 1])
  }

  lemma {:induction false} LeIsReversedBe(v: nat, n: nat)
    ensures Le(v, n) == Reverse(Be(v, n))
  {
    if n > 0 {
      LeIsReversedBe(v / 256, n - 1);
      assert Be(v, n)[..n - 1] == Be(v / 256, n - 1);
    }
  }

  /** The number whose k low bytes are those of `low`, below `high`. */
  function Join(high: nat, low: nat, k: nat): nat {
    if k == 0 then high else 256 * Join(high, low / 256, k - 1) + low % 256
  }

  lemma Join4(high: nat, low: u32)
    ensures Join(high, low, 4) == high * TWO_32 + low
  {
    var a := low / 256;
    var b := a / 256;
    var c := b / 256;
    assert c / 256 == 0;
    assert Join(high, c, 1) == 256 * Join(high, 0, 0) + c % 256;
    assert Join(high, b, 2) == 256 * Join(high, c, 1) + b % 256;
    assert Join(high, a, 3) == 256 * Join(high, b, 2) + a % 256;
  }

  lemma LeCons(q: nat, r: nat, n: nat)
    requires r < 256
    ensures Le(256 * q + r, n + 1) == [r] + Le(q, n)
  {
    assert (256 * q + r) / 256 == q && (256 * q + r) % 256 == r;
  }

  lemma BeSnoc(q: nat, r: nat, n: nat)
    requires r < 256
    ensures Be(256 * q + r, n + 1) == Be(q, n) + [r]
  {
    assert (256 * q + r) / 256 == q && (256 * q + r) % 256 == r;
  }

  /** Splitting a number at a byte boundary splits its bytes. */
  lemma {:induction false} LeSplit(high: nat, low: nat, m: nat, k: nat)
    ensures Le(Join(high, low, k), k + m) == Le(low, k) + Le(high, m)
    decreases k
  {
    if k == 0 {
      assert Le(low, k) + Le(high, m) == Le(high, m);
    } else {
      var q, r := low / 256, low % 256;
      LeSplit(high, q, m, k - 1);
      LeCons(Join(high, q, k - 1), r, k - 1 + m);
      LeCons(q, r, k - 1);
      assert [r] + (Le(q, k - 1) + Le(high, m)) == [r] + Le(q, k - 1) + Le(high, m);
    }
  }

  lemma {:induction false} BeSplit(high: nat, low: nat, m: nat, k: nat)
    ensures Be(Join(high, low, k), m + k) == Be(high, m) + Be(low, k)
    decreases k
  {
    if k == 0 {
      assert Be(high, m) + Be(low, k) == Be(high, m);
    } else {
      var q, r := low / 256, low % 256;
      BeSplit(high, q, m, k - 1);
      BeSnoc(Join(high, q, k - 1), r, m + k - 1);
      BeSnoc(q, r, k - 1);
      assert Be(high, m) + Be(q, k - 1) + [r] == Be(high, m) + (Be(q, k - 1) + [r]);
    }
  }

  /** The two halves of a 64-bit number. */
  lemma Halves(high: nat, low: u32)
    ensures Le(high * TWO_32 + low, 8) == Le(low, 4) + Le(high, 4)
    ensures Be(high * TWO_32 + low, 8) == Be(high, 4) + Be(low, 4)
  {
    Join4(high, low);
    LeSplit(high, low, 4, 4);
    BeSplit(high, low, 4, 4);
  }

  /** Most significant byte first. */
  lemma BeBytes(v: u32)
    ensures Be(v, 4) == [v / 0x100_0000, v / 0x1_0000 % 256, v / 0x100 % 256, v % 256]
  {
    var a := v / 256;
    var b := a / 256;
    assert Be(b / 256, 1) == Be(b / 256 / 256, 0) + [b / 256 % 256];
    assert Be(b, 2) == Be(b / 256, 1) + [b % 256];
    assert Be(a, 3) == Be(b, 2) + [a % 256];
    assert Be(v, 4) == Be(a, 3) + [v % 256];
  }

  // ---------- The fields ----------

  lemma Pow4()
    ensures Pow256(4) == TWO_32 && Pow256(8) == TWO_64
  {
    assert Pow256(4) == 256 * 256 * 256 * 256 * Pow256(0);
    assert Pow256(8) == 256 * 256 * 256 * 256 * Pow256(4);
  }

  lemma DoubleReverse(s: seq<byte>)
    ensures Reverse(Reverse(s)) == s
  {
  }

  /** Le(FromBe(Le(v, n)), n) == Be(v, n): storing the byte-swapped value. */
  lemma StoreSwapped(v: nat, n: nat)
    ensures Le(FromBe(Le(v, n)), n) == Be(v, n)
  {
    var s := Le(v, n);
    FromBeRoundTrip(s);
    LeIsReversedBe(FromBe(s), n);
    LeIsReversedBe(v, n);
    DoubleReverse(Be(v, n));
  }

  /** WriteNetField32 leaves the most significant byte first, on both kinds of host. */
  lemma Write32IsNetworkOrder(host: Endian, v: u32)
    ensures Store(host, Htonl(host, v), 4) == Be(v, 4)
  {
    if host.Little? {
      StoreSwapped(v, 4);
    }
  }

  lemma Swapped(v: u32) returns (x: u32)
    ensures x == Htonl(Little, v) && Le(x, 4) == Be(v, 4)
  {
    Pow4();
    FromBeRoundTrip(Le(v, 4));
    StoreSwapped(v, 4);
    x := FromBe(Le(v, 4));
  }

  lemma SwappedHalves(hi: u32, lo: u32)
    ensures Le(Htonl(Little, lo) * TWO_32 + Htonl(Little, hi), 8) == Be(hi * TWO_32 + lo, 8)
  {
    var x := Swapped(lo);
    var y := Swapped(hi);
    Halves(x, y);
    Halves(hi, lo);
  }

  /** WriteNetField64 does too, through the exchange of the two 32-bit halves. */
  lemma Write64IsNetworkOrder(host: Endian, v: u64)
    ensures Store(host, Htonll(host, v), 8) == Be(v, 8)
  {
    if host.Little? {
      SwappedHalves(v / TWO_32, v % TWO_32);
      assert v / TWO_32 * TWO_32 + v % TWO_32 == v;
    }
  }

  /** ReadNetField32 gives the number whose bytes, most significant first, are in the buffer. */
  lemma Read32IsNetworkOrder(host: Endian, s: seq<byte>)
    requires |s| == 4
    ensures Htonl(host, Load(host, s)) == FromBe(s) < TWO_32
  {
    Pow4();
    FromBeRoundTrip(s);
    if host.Little? {
      FromLeRoundTrip(s);
    }
  }

  lemma {:induction false} Read64IsNetworkOrder(host: Endian, s: seq<byte>)
    requires |s| == 8
    ensures Htonll(host, Load(host, s)) == FromBe(s) < TWO_64
  {
    Pow4();
    FromBeRoundTrip(s);
    if host.Little? {
      var a, b := s[..4], s[4..];
      assert s == a + b;
      FromLeRoundTrip(s);
      FromBeRoundTrip(a);
      FromBeRoundTrip(b);
      Halves(FromBe(a), FromBe(b));
      BeRoundTrip(FromBe(a) * TWO_32 + FromBe(b), 8);
      LeHalves(FromLe(s), a, b);
    }
  }

  lemma LeHalves(w: nat, a: seq<byte>, b: seq<byte>)
    requires |a| == |b| == 4 && Le(w, 8) == a + b
    ensures Le(w % TWO_32, 4) == a && Le(w / TWO_32, 4) == b
  {
    Halves(w / TWO_32, w % TWO_32);
    assert (a + b)[..4] == a && (a + b)[4..] == b;
    assert (Le(w % TWO_32, 4) + Le(w / TWO_32, 4))[..4] == Le(w % TWO_32, 4);
    assert (Le(w % TWO_32, 4) + Le(w / TWO_32, 4))[4..] == Le(w / TWO_32, 4);
  }
}
