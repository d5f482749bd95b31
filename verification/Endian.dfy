// Fixed-width integers, their byte images in memory, and the 64-bit byte-order
// conversion of src/common/protocol.c.

module Endian {

  type Byte = x: int | 0 <= x < 0x100
  type U32 = x: int | 0 <= x < 0x1_0000_0000
  type U64 = x: int | 0 <= x < 0x1_0000_0000_0000_0000

  /** The byte order of the machine a process runs on. */
  datatype Host = LittleEndian | BigEndian

  // ---------- network byte order (Appendix B of RFC 791) ----------

  /** The n low-order base-256 digits of x, most significant first. */
  function Digits(x: nat, n: nat): (b: seq<Byte>)
    ensures |b| == n
  {
    if n == 0 then [] else Digits(x / 0x100, n - 1) + [x % 0x100]
  }

  function Value(b: seq<Byte>): nat {
    if b == [] then 0 else Value(b[..|b| - 1]) * 0x100 + b[|b| - 1]
  }

  function Pow256(n: nat): (p: nat)
    ensures p > 0
  {
    if n == 0 then 1 else Pow256(n - 1) * 0x100
  }

  lemma {:induction false} ValueDigits(x: nat, n: nat)
    requires x < Pow256(n)
    ensures Value(Digits(x, n)) == x
  {
    if n > 0 {
      ValueDigits(x / 0x100, n - 1);
      assert Digits(x, n)[..n - 1] == Digits(x / 0x100, n - 1);
    }
  }

  lemma {:induction false} DigitsValue(b: seq<Byte>)
    ensures Value(b) < Pow256(|b|)
    ensures Digits(Value(b), |b|) == b
  {
    if b != [] {
      DigitsValue(b[..|b| - 1]);
    }
  }

  function Be32(x: U32): (b: seq<Byte>)
    ensures |b| == 4
  {
    Digits(x, 4)
  }

  function FromBe32(b: seq<Byte>): U32
    requires |b| == 4
  {
    DigitsValue(b);
    assert Pow256(4) == 0x1_0000_0000;
    Value(b)
  }

  lemma FromBe32Be32(x: U32)
    ensures FromBe32(Be32(x)) == x
  {
    assert Pow256(4) == 0x1_0000_0000;
    ValueDigits(x, 4);
  }

  lemma Be32FromBe32(b: seq<Byte>)
    requires |b| == 4
    ensures Be32(FromBe32(b)) == b
  {
    DigitsValue(b);
  }

  lemma DivideTwice(x: nat)
    ensures x / 0x100 / 0x100 == x / 0x1_0000
    ensures x / 0x100 / 0x100 / 0x100 == x / 0x100_0000
  {
  }

  /** Network byte order, by arithmetic: the most significant byte comes first. */
  lemma NetworkOrder32(x: U32)
    ensures Be32(x) == [x / 0x100_0000, x / 0x1_0000 % 0x100, x / 0x100 % 0x100, x % 0x100]
  {
    var a, b, c := x / 0x100, x / 0x100 / 0x100, x / 0x100 / 0x100 / 0x100;
    DivideTwice(x);
    assert c / 0x100 == 0 && c % 0x100 == c;
    assert Digits(c / 0x100, 0) == [];
    assert Digits(c, 1) == [] + [c % 0x100] == [c];
    assert Digits(b, 2) == [c] + [b % 0x100] == [c, b % 0x100];
    assert Digits(a, 3) == [c, b % 0x100] + [a % 0x100] == [c, b % 0x100, a % 0x100];
    assert Be32(x) == [c, b % 0x100, a % 0x100] + [x % 0x100];
  }

  /** Four bytes are read as the one word that is written as them. */
  lemma NetworkRead32(b: seq<Byte>, x: U32)
    requires |b| == 4
    ensures FromBe32(b) == x <==> b == Be32(x)
  {
    FromBe32Be32(x);
    Be32FromBe32(b);
  }

  // ---------- memory images ----------

  /** The four bytes a 32-bit integer occupies in memory. */
  function Store32(h: Host, x: U32): (b: seq<Byte>)
    ensures |b| == 4
  {
    var n := Be32(x);
    if h == BigEndian then n else [n[3], n[2], n[1], n[0]]
  }

  function Load32(h: Host, b: seq<Byte>): U32
    requires |b| == 4
  {
    FromBe32(if h == BigEndian then b else [b[3], b[2], b[1], b[0]])
  }

  lemma StoreLoad32(h: Host, b: seq<Byte>)
    requires |b| == 4
    ensures Store32(h, Load32(h, b)) == b
  {
    Be32FromBe32(if h == BigEndian then b else [b[3], b[2], b[1], b[0]]);
  }

  lemma LoadStore32(h: Host, x: U32)
    ensures Load32(h, Store32(h, x)) == x
  {
    FromBe32Be32(x);
    var n := Be32(x);
    assert n == [n[0], n[1], n[2], n[3]];
  }

  /** A little-endian machine keeps the least significant byte first, a big-endian one the other way round. */
  lemma MemoryOrder32(h: Host, x: U32)
    ensures Store32(h, x) ==
            if h == LittleEndian then [x % 0x100, x / 0x100 % 0x100, x / 0x1_0000 % 0x100, x / 0x100_0000]
            else [x / 0x100_0000, x / 0x1_0000 % 0x100, x / 0x100 % 0x100, x % 0x100]
  {
    NetworkOrder32(x);
  }

  /** htonl: the integer whose image in memory is the network order of x. */
  function Htonl(h: Host, x: U32): U32 {
    Load32(h, Be32(x))
  }

  function Ntohl(h: Host, x: U32): U32 {
    FromBe32(Store32(h, x))
  }

  lemma NtohlHtonl(h: Host, x: U32)
    ensures Ntohl(h, Htonl(h, x)) == x
  {
    StoreLoad32(h, Be32(x));
    FromBe32Be32(x);
  }

  /** A word converted by htonl lies in memory, and so on the wire, in network order on either machine. */
  lemma WordOnWire(h: Host, x: U32)
    ensures Store32(h, Htonl(h, x)) == [x / 0x100_0000, x / 0x1_0000 % 0x100, x / 0x100 % 0x100, x % 0x100]
  {
    StoreLoad32(h, Be32(x));
    NetworkOrder32(x);
  }

  // ---------- 64-bit words as two halves ----------

  function High(v: U64): U32 {
    v / 0x1_0000_0000
  }

  function Low(v: U64): U32 {
    v % 0x1_0000_0000
  }

  function Join(high: U32, low: U32): (v: U64)
    ensures High(v) == high && Low(v) == low
  {
    high * 0x1_0000_0000 + low
  }

  lemma JoinHalves(v: U64)
    ensures Join(High(v), Low(v)) == v
  {
  }

  function Be64(x: U64): (b: seq<Byte>)
    ensures |b| == 8
  {
    Be32(High(x)) + Be32(Low(x))
  }

  function Store64(h: Host, x: U64): (b: seq<Byte>)
    ensures |b| == 8
  {
    if h == BigEndian then Store32(h, High(x)) + Store32(h, Low(x))
    else Store32(h, Low(x)) + Store32(h, High(x))
  }

  function Load64(h: Host, b: seq<Byte>): U64
    requires |b| == 8
  {
    if h == BigEndian then Join(Load32(h, b[..4]), Load32(h, b[4..]))
    else Join(Load32(h, b[4..]), Load32(h, b[..4]))
  }

  lemma LoadStore64(h: Host, x: U64)
    ensures Load64(h, Store64(h, x)) == x
  {
    LoadStore32(h, High(x));
    LoadStore32(h, Low(x));
    var a, b := Store32(h, High(x)), Store32(h, Low(x));
    assert (a + b)[..4] == a && (a + b)[4..] == b;
    assert (b + a)[..4] == b && (b + a)[4..] == a;
    JoinHalves(x);
  }

  // ---------- host_to_net_u64 / net_to_host_u64 ----------

  function HostToNetU64(h: Host, value: U64): U64 {
    Join(Htonl(h, Low(value)), Htonl(h, High(value)))
  }

  function NetToHostU64(h: Host, value: U64): U64 {
    Join(Ntohl(h, Low(value)), Ntohl(h, High(value)))
  }

  /** The eight bytes a converted offset or size puts on the wire. */
  function WireU64(h: Host, v: U64): (b: seq<Byte>)
    ensures |b| == 8
  {
    Store64(h, HostToNetU64(h, v))
  }

  /** What the receiver makes of those eight bytes. */
  function ReadU64(h: Host, b: seq<Byte>): U64
    requires |b| == 8
  {
    NetToHostU64(h, Load64(h, b))
  }

  /** On one host order the conversion is undone exactly, whichever order it is. */
  lemma SameHostRoundTrip(h: Host, v: U64)
    ensures NetToHostU64(h, HostToNetU64(h, v)) == v
  {
    NtohlHtonl(h, High(v));
    NtohlHtonl(h, Low(v));
    JoinHalves(v);
  }

  lemma WireRoundTrip(h: Host, v: U64)
    ensures ReadU64(h, WireU64(h, v)) == v
  {
    LoadStore64(h, HostToNetU64(h, v));
    SameHostRoundTrip(h, v);
  }

  /** The eight bytes each host order emits: network order only on a little-endian machine. */
  lemma WireLayout(h: Host, v: U64)
    ensures WireU64(h, v) == if h == LittleEndian then Be64(v)
                             else Be32(Low(v)) + Be32(High(v))
  {
    StoreLoad32(h, Be32(High(v)));
    StoreLoad32(h, Be32(Low(v)));
  }

  /** By arithmetic: on a little-endian machine the eight bytes are the value, most significant byte first. */
  lemma WireBytes(v: U64)
    ensures WireU64(LittleEndian, v) ==
            [v / 0x100_0000_0000_0000, v / 0x1_0000_0000_0000 % 0x100, v / 0x100_0000_0000 % 0x100,
             v / 0x1_0000_0000 % 0x100, v / 0x100_0000 % 0x100, v / 0x1_0000 % 0x100, v / 0x100 % 0x100, v % 0x100]
  {
    WireLayout(LittleEndian, v);
    NetworkOrder32(High(v));
    NetworkOrder32(Low(v));
    HighByBytes(v);
    LowByte3(v);
    LowByte2(v);
    LowByte1(v);
    assert Be64(v) == Be32(High(v)) + Be32(Low(v));
  }

  lemma HighByBytes(v: U64)
    ensures High(v) / 0x100_0000 == v / 0x100_0000_0000_0000
    ensures High(v) / 0x1_0000 == v / 0x1_0000_0000_0000
    ensures High(v) / 0x100 == v / 0x100_0000_0000
  {
  }

  lemma LowByte3(v: U64)
    ensures Low(v) / 0x100_0000 == v / 0x100_0000 % 0x100
  {
    assert v / 0x100_0000 == High(v) * 0x100 + Low(v) / 0x100_0000;
  }

  lemma LowByte2(v: U64)
    ensures Low(v) / 0x1_0000 % 0x100 == v / 0x1_0000 % 0x100
  {
    assert v / 0x1_0000 == High(v) * 0x1_0000 + Low(v) / 0x1_0000;
  }

  lemma WholeBytes(a: nat, b: nat)
    ensures (a * 0x100 + b) % 0x100 == b % 0x100 && (a * 0x100 + b) / 0x100 == a + b / 0x100
  {
  }

  lemma LowByte1(v: U64)
    ensures Low(v) / 0x100 % 0x100 == v / 0x100 % 0x100
    ensures Low(v) % 0x100 == v % 0x100
  {
    var a, b: nat := High(v) * 0x100_0000, Low(v);
    assert v == a * 0x100 + b;
    WholeBytes(a, b);
    WholeBytes(High(v) * 0x1_0000, b / 0x100);
  }

  lemma SwapHalvesLayout(h: Host, g: Host, v: U64)
    requires h != g
    ensures WireU64(h, Join(Low(v), High(v))) == WireU64(g, v)
  {
    WireLayout(g, v);
    WireLayout(h, Join(Low(v), High(v)));
  }

  /**
   * Between machines an offset survives exactly when they share a byte order or
   * the two halves of the value happen to be equal: the format is not portable.
   */
  lemma CrossHostRoundTrip(sender: Host, receiver: Host, v: U64)
    ensures ReadU64(receiver, WireU64(sender, v)) == v <==>
            (sender == receiver || High(v) == Low(v))
  {
    if sender == receiver {
      WireRoundTrip(sender, v);
    } else {
      SwapHalvesLayout(receiver, sender, v);
      WireRoundTrip(receiver, Join(Low(v), High(v)));
      JoinHalves(v);
    }
  }

  /** The smallest failing case: a one-byte file size read on the other kind of machine. */
  lemma CrossHostExample()
    ensures ReadU64(BigEndian, WireU64(LittleEndian, 1)) == 0x1_0000_0000
  {
    SwapHalvesLayout(BigEndian, LittleEndian, 1);
    WireRoundTrip(BigEndian, Join(Low(1), High(1)));
  }
}
