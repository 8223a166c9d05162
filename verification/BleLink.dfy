/** The bit-level part of the Bluetooth LE receiver, firmware/baseband/proc_btlerx.cpp: bit
slicing, dewhitening and the 24-bit cyclic redundancy check. */
module BleLink {
  import opened Gf2
  import opened BitStrings

  // Bytes and bits, most significant bit first

  function Octet(b0: bool, b1: bool, b2: bool, b3: bool, b4: bool, b5: bool, b6: bool, b7: bool): (s: seq<bool>)
    ensures |s| == 8
    ensures s[0] == b0 && s[1] == b1 && s[2] == b2 && s[3] == b3 && s[4] == b4 && s[5] == b5 && s[6] == b6 && s[7] == b7
  {
    [b0, b1, b2, b3, b4, b5, b6, b7]
  }

  function Bits(b: bv8): (s: seq<bool>)
    ensures |s| == 8
  {
    Octet((b & 0x80) != 0, (b & 0x40) != 0, (b & 0x20) != 0, (b & 0x10) != 0,
          (b & 0x08) != 0, (b & 0x04) != 0, (b & 0x02) != 0, (b & 0x01) != 0)
  }

  function AllBits(bytes: seq<bv8>): (s: seq<bool>)
    ensures |s| == 8 * |bytes|
  {
    if bytes == [] then [] else AllBits(bytes[..|bytes| - 1]) + Bits(bytes[|bytes| - 1])
  }

  function TopBit(b: bv8): bool { (b & 0x80) != 0 }

  function LowBit(b: bv8): bool { (b & 0x01) != 0 }

  function Halved(b: bv8): bv8 { b >> 1 }

  /** Shifts left and takes in the top bit of the next byte. */
  function ShiftIn(hi: bv8, lo: bv8): bv8 { (hi << 1) | (if TopBit(lo) then 1 else 0) }

  lemma EndBits(b: bv8)
    ensures TopBit(b) == Bits(b)[0] && LowBit(b) == Bits(b)[7] && !Bits(0)[0]
  {
  }

  lemma HalvedBits(b: bv8)
    ensures Bits(Halved(b)) == [false] + Bits(b)[..7]
  {
    assert Bits(Halved(b)) == Octet(false, (b & 0x80) != 0, (b & 0x40) != 0, (b & 0x20) != 0,
                                    (b & 0x10) != 0, (b & 0x08) != 0, (b & 0x04) != 0, (b & 0x02) != 0);
  }

  lemma ShiftedInBits(hi: bv8, lo: bv8)
    ensures Bits(ShiftIn(hi, lo)) == Bits(hi)[1..] + [Bits(lo)[0]]
  {
    assert Bits(ShiftIn(hi, lo)) == Octet((hi & 0x40) != 0, (hi & 0x20) != 0, (hi & 0x10) != 0, (hi & 0x08) != 0,
                                          (hi & 0x04) != 0, (hi & 0x02) != 0, (hi & 0x01) != 0, (lo & 0x80) != 0);
  }

  /** Bit reversal with three multiplications of 32-bit words. */
  function ReverseByte(b: bv8): bv8 {
    var w := b as bv32;
    var spread := ((w * 0x0802) & 0x22110) | ((w * 0x8020) & 0x88440);
    (((spread * 0x10101) >> 16) & 0xFF) as bv8
  }

  function Backwards(s: seq<bool>): (r: seq<bool>)
    ensures |r| == |s|
  {
    seq(|s|, k requires 0 <= k < |s| => s[|s| - 1 - k])
  }

  lemma ReverseByteReverses(b: bv8)
    ensures Bits(ReverseByte(b)) == Backwards(Bits(b))
  {
    assert Bits(ReverseByte(b)) == Octet((b & 0x01) != 0, (b & 0x02) != 0, (b & 0x04) != 0, (b & 0x08) != 0,
                                         (b & 0x10) != 0, (b & 0x20) != 0, (b & 0x40) != 0, (b & 0x80) != 0);
    hide ReverseByte;
  }

  // Whitening

  function LfsrStep(l: bv8): bv8 { (if TopBit(l) then l ^ 0x11 else l) << 1 }

  function LfsrAfter(l: bv8, n: nat): bv8 { if n == 0 then l else LfsrStep(LfsrAfter(l, n - 1)) }

  /** The start value for a channel. */
  function Seed(channel: bv8): bv8 { ReverseByte(channel) | 2 }

  /** The mask of the bit loops, 0x80 shifted right `k` times. */
  function Mask(k: nat): bv8
    requires k < 8
  {
    match k
    case 0 => 0x80
    case 1 => 0x40
    case 2 => 0x20
    case 3 => 0x10
    case 4 => 0x08
    case 5 => 0x04
    case 6 => 0x02
    case _ => 0x01
  }

  /** What is exclusive-ored to a byte whose first bit meets register `l`, after `n` of its bits. */
  function KeyBits(l: bv8, n: nat): bv8
    requires n <= 8
  {
    if n == 0 then 0
    else if TopBit(LfsrAfter(l, n - 1)) then KeyBits(l, n - 1) ^ Mask(n - 1)
    else KeyBits(l, n - 1)
  }

  /** The key for the byte at a position depends on nothing but the position. */
  function Key(l: bv8, position: nat): bv8 { KeyBits(LfsrAfter(l, 8 * position), 8) }

  function Whitened(l: bv8, bytes: seq<bv8>): (r: seq<bv8>)
    ensures |r| == |bytes|
  {
    seq(|bytes|, i requires 0 <= i < |bytes| => bytes[i] ^ Key(l, i))
  }

  lemma {:induction false} LfsrAfterSum(l: bv8, m: nat, n: nat)
    ensures LfsrAfter(LfsrAfter(l, m), n) == LfsrAfter(l, m + n)
  {
    if n > 0 {
      LfsrAfterSum(l, m, n - 1);
    }
  }

  lemma XorTwice(x: bv8, k: bv8)
    ensures (x ^ k) ^ k == x
  {
  }

  /** Whitening is an involution: the receiver undoes what the transmitter did. */
  lemma WhiteningIsAnInvolution(l: bv8, bytes: seq<bv8>)
    ensures Whitened(l, Whitened(l, bytes)) == bytes
  {
    hide Key;
    forall i | 0 <= i < |bytes| ensures (bytes[i] ^ Key(l, i)) ^ Key(l, i) == bytes[i] {
      XorTwice(bytes[i], Key(l, i));
    }
  }

  /** Whitening a prefix gives the prefix of the whitened bytes. */
  lemma WhitenedPrefix(l: bv8, bytes: seq<bv8>, n: nat)
    requires n <= |bytes|
    ensures Whitened(l, bytes)[..n] == Whitened(l, bytes[..n])
  {
  }

  /** The dewhitening loops, in place. */
  method Dewhiten(a: array<bv8>, n: nat, channel: bv8)
    requires n <= a.Length
    modifies a
    ensures a[..n] == Whitened(Seed(channel), old(a[..n]))
    ensures a[n..] == old(a[n..])
  {
    hide KeyBits, LfsrAfter, LfsrStep, Seed, Mask;
    ghost var seed := Seed(channel);
    var lfsr := Seed(channel);
    NothingShifted(seed);
    for counter := 0 to n
      invariant lfsr == LfsrAfter(seed, 8 * counter)
      invariant forall k :: 0 <= k < counter ==> a[k] == old(a[k]) ^ Key(seed, k)
      invariant forall k :: counter <= k < a.Length ==> a[k] == old(a[k])
    {
      ghost var l0 := lfsr;
      NothingShifted(l0);
      XorZero(a[counter]);
      for v := 0 to 8
        invariant lfsr == LfsrAfter(l0, v)
        invariant a[counter] == old(a[counter]) ^ KeyBits(l0, v)
        invariant forall k :: 0 <= k < a.Length && k != counter ==>
                    a[k] == if k < counter then old(a[k]) ^ Key(seed, k) else old(a[k])
      {
        OneShift(l0, v);
        XorAssociates(old(a[counter]), KeyBits(l0, v), Mask(v));
        if TopBit(lfsr) {
          lfsr := lfsr ^ 0x11;
          a[counter] := a[counter] ^ Mask(v);
        }
        lfsr := lfsr << 1;
      }
      LfsrAfterSum(seed, 8 * counter, 8);
    }
  }

  lemma NothingShifted(l: bv8)
    ensures LfsrAfter(l, 0) == l && KeyBits(l, 0) == 0
  {
  }

  lemma OneShift(l: bv8, v: nat)
    requires v < 8
    ensures LfsrAfter(l, v + 1) == (if TopBit(LfsrAfter(l, v)) then LfsrAfter(l, v) ^ 0x11 else LfsrAfter(l, v)) << 1
    ensures KeyBits(l, v + 1) == if TopBit(LfsrAfter(l, v)) then KeyBits(l, v) ^ Mask(v) else KeyBits(l, v)
  {
  }

  lemma XorZero(x: bv8)
    ensures x ^ 0 == x
  {
  }

  lemma XorAssociates(x: bv8, y: bv8, z: bv8)
    ensures (x ^ y) ^ z == x ^ (y ^ z)
  {
  }

  // The whitening register of the Bluetooth specification, Vol 6 Part B section 3.2: seven
  // positions; position 6 is the output, feeds position 0, and is added into position 4.

  function RegisterStep(p: seq<bool>): (q: seq<bool>)
    requires |p| == 7
    ensures |q| == 7
  {
    [p[6], p[0], p[1], p[2], p[3] != p[6], p[4], p[5]]
  }

  function RegisterAfterSteps(p: seq<bool>, n: nat): (q: seq<bool>)
    requires |p| == 7
    ensures |q| == 7
  {
    if n == 0 then p else RegisterStep(RegisterAfterSteps(p, n - 1))
  }

  /** Position k of the register is bit k + 1 of the byte, counted from the low end. */
  function Register(l: bv8): (p: seq<bool>)
    ensures |p| == 7
  {
    [(l & 0x02) != 0, (l & 0x04) != 0, (l & 0x08) != 0, (l & 0x10) != 0, (l & 0x20) != 0, (l & 0x40) != 0, (l & 0x80) != 0]
  }

  lemma ByteLfsrIsTheRegister(l: bv8)
    requires !LowBit(l)
    ensures Register(LfsrStep(l)) == RegisterStep(Register(l)) && !LowBit(LfsrStep(l))
    ensures TopBit(l) == Register(l)[6]
  {
  }

  /** Position 0 starts at one, positions 1 to 6 with the channel index, its most significant
      bit in position 1. */
  lemma SeedIsTheInitialRegister(channel: bv8)
    requires channel < 64
    ensures Register(Seed(channel)) == [true] + Bits(channel)[2..]
    ensures !LowBit(Seed(channel))
  {
    hide ReverseByte, Seed, WithBit, Bits, Register, LowBit;
    var r := ReverseByte(channel);
    SeedWithBit(channel);
    ReverseByteReverses(channel);
    SetBit(r, 6);
    RegisterOfBits(Seed(channel));
    ChannelBits(channel);
    var s := Bits(channel);
    assert s[2..] == [s[2], s[3], s[4], s[5], s[6], s[7]];
  }

  lemma SeedWithBit(channel: bv8)
    ensures Seed(channel) == WithBit(ReverseByte(channel), 6)
  {
    hide ReverseByte;
  }

  lemma RegisterOfBits(l: bv8)
    ensures var s := Bits(l);
            Register(l) == [s[6], s[5], s[4], s[3], s[2], s[1], s[0]] && LowBit(l) == s[7]
  {
  }

  lemma ChannelBits(channel: bv8)
    requires channel < 64
    ensures !Bits(channel)[0]
  {
  }

  /** Bit `n` of the keystream is the output of the specified register after `n` steps. */
  lemma {:induction false} KeystreamIsTheSpecifiedOne(channel: bv8, n: nat)
    requires channel < 64
    ensures var l, p := LfsrAfter(Seed(channel), n), RegisterAfterSteps([true] + Bits(channel)[2..], n);
            !LowBit(l) && Register(l) == p && TopBit(l) == p[6]
  {
    hide LfsrStep, RegisterStep, Register, Seed, Bits, LowBit, TopBit;
    if n == 0 {
      SeedIsTheInitialRegister(channel);
    } else {
      KeystreamIsTheSpecifiedOne(channel, n - 1);
      ByteLfsrIsTheRegister(LfsrAfter(Seed(channel), n - 1));
    }
    ByteLfsrIsTheRegister(LfsrAfter(Seed(channel), n));
  }

  lemma FreshBit(b: bv8, c: nat)
    requires c < 8 && !Bits(b)[c]
    ensures b ^ Mask(c) == WithBit(b, c)
  {
    assert b & Mask(c) == 0;
  }

  lemma OneMoreKeyBit(l: bv8, n: nat)
    requires n < 8 && !Bits(KeyBits(l, n))[n]
    ensures Bits(KeyBits(l, n + 1))
         == if TopBit(LfsrAfter(l, n)) then Bits(KeyBits(l, n))[n := true] else Bits(KeyBits(l, n))
  {
    OneShift(l, n);
    hide Bits, KeyBits, LfsrAfter, TopBit, Mask, WithBit;
    FreshBit(KeyBits(l, n), n);
    SetBit(KeyBits(l, n), n);
  }

  lemma {:induction false} BitsOfKey(l: bv8, n: nat, k: nat)
    requires n <= 8 && k < 8
    ensures Bits(KeyBits(l, n))[k] == (k < n && TopBit(LfsrAfter(l, k)))
  {
    hide *;
    if n == 0 {
      NothingShifted(l);
      NoBits();
    } else {
      BitsOfKey(l, n - 1, k);
      BitsOfKey(l, n - 1, n - 1);
      OneMoreKeyBit(l, n - 1);
    }
  }

  /** Bit k of the key for byte i is output 8 * i + k of the specified register. */
  lemma KeyIsTheSpecifiedKeystream(channel: bv8, i: nat, k: nat)
    requires channel < 64 && k < 8
    ensures Bits(Key(Seed(channel), i))[k] == RegisterAfterSteps([true] + Bits(channel)[2..], 8 * i + k)[6]
  {
    hide Bits, KeyBits, LfsrAfter, RegisterAfterSteps, Seed, TopBit;
    BitsOfKey(LfsrAfter(Seed(channel), 8 * i), 8, k);
    LfsrAfterSum(Seed(channel), 8 * i, k);
    KeystreamIsTheSpecifiedOne(channel, 8 * i + k);
  }

  // Bit slicing

  const RB_SIZE: nat := 1000

  /** Eight samples of the ring buffer against the threshold, first sample first. */
  function SlicedBits(rb: seq<int>, head: nat, offset: nat, threshold: int): (s: seq<bool>)
    requires |rb| == RB_SIZE
    ensures |s| == 8
  {
    seq(8, c requires 0 <= c < 8 => rb[(head + offset + c) % RB_SIZE] > threshold)
  }

  function WithBit(b: bv8, c: nat): bv8
    requires c < 8
  {
    b | Mask(c)
  }

  lemma WithBitMasks(b: bv8, c: nat)
    requires c < 8
    ensures var r := WithBit(b, c);
            && ((r & 0x80) != 0) == ((b & 0x80) != 0 || c == 0) && ((r & 0x40) != 0) == ((b & 0x40) != 0 || c == 1)
            && ((r & 0x20) != 0) == ((b & 0x20) != 0 || c == 2) && ((r & 0x10) != 0) == ((b & 0x10) != 0 || c == 3)
            && ((r & 0x08) != 0) == ((b & 0x08) != 0 || c == 4) && ((r & 0x04) != 0) == ((b & 0x04) != 0 || c == 5)
            && ((r & 0x02) != 0) == ((b & 0x02) != 0 || c == 6) && ((r & 0x01) != 0) == ((b & 0x01) != 0 || c == 7)
  {
  }

  lemma SetBit(b: bv8, c: nat)
    requires c < 8
    ensures Bits(WithBit(b, c)) == Bits(b)[c := true]
  {
    WithBitMasks(b, c);
    hide Octet, WithBit;
    UpdatedOctet(Bits(b), Bits(WithBit(b, c)), c);
  }

  lemma UpdatedOctet(s: seq<bool>, r: seq<bool>, c: nat)
    requires |s| == |r| == 8 && c < 8
    requires r[0] == (s[0] || c == 0) && r[1] == (s[1] || c == 1) && r[2] == (s[2] || c == 2) && r[3] == (s[3] || c == 3)
    requires r[4] == (s[4] || c == 4) && r[5] == (s[5] || c == 5) && r[6] == (s[6] || c == 6) && r[7] == (s[7] || c == 7)
    ensures r == s[c := true]
  {
    assert forall k :: 0 <= k < 8 ==> r[k] == (s[k] || c == k);
  }

  method SliceByte(rb: seq<int>, head: nat, offset: nat, threshold: int) returns (byte: bv8)
    requires |rb| == RB_SIZE
    ensures Bits(byte) == SlicedBits(rb, head, offset, threshold)
  {
    hide Bits, WithBit, SlicedBits, FirstBits, Zeros;
    ghost var s := SlicedBits(rb, head, offset, threshold);
    byte := 0;
    NoBits();
    NextBit(s, 0);
    for c := 0 to 8
      invariant Bits(byte) == FirstBits(s, c)
    {
      SetBit(byte, c);
      NextBit(s, c);
      SlicedAt(rb, head, offset, threshold, c);
      if rb[(head + offset + c) % RB_SIZE] > threshold { byte := WithBit(byte, c); }
    }
    AllBitsSliced(s);
  }

  lemma SlicedAt(rb: seq<int>, head: nat, offset: nat, threshold: int, c: nat)
    requires |rb| == RB_SIZE && c < 8
    ensures SlicedBits(rb, head, offset, threshold)[c] == (rb[(head + offset + c) % RB_SIZE] > threshold)
  {
  }

  lemma NoBits()
    ensures Bits(0) == Zeros(8)
  {
  }

  /** The first `c` bits, and zeros instead of the others. */
  function FirstBits(s: seq<bool>, c: nat): (r: seq<bool>)
    requires |s| == 8 && c <= 8
    ensures |r| == 8
  {
    s[..c] + Zeros(8 - c)
  }

  lemma NextBit(s: seq<bool>, c: nat)
    requires |s| == 8 && c < 8
    ensures FirstBits(s, c + 1) == if s[c] then FirstBits(s, c)[c := true] else FirstBits(s, c)
    ensures FirstBits(s, 0) == Zeros(8)
  {
  }

  lemma AllBitsSliced(s: seq<bool>)
    requires |s| == 8
    ensures FirstBits(s, 8) == s
  {
  }

  /** Bytes of the packet at consecutive offsets of eight samples. */
  function SlicedPacket(rb: seq<int>, head: nat, threshold: int, bytes: seq<bv8>): bool
    requires |rb| == RB_SIZE
  {
    forall t :: 0 <= t < |bytes| ==> Bits(bytes[t]) == SlicedBits(rb, head, 40 + 8 * t, threshold)
  }

  lemma {:induction false} SameBitsSameByte(a: bv8, b: bv8)
    requires Bits(a) == Bits(b)
    ensures a == b
  {
    assert Bits(a)[0] == Bits(b)[0] && Bits(a)[1] == Bits(b)[1] && Bits(a)[2] == Bits(b)[2] && Bits(a)[3] == Bits(b)[3];
    assert Bits(a)[4] == Bits(b)[4] && Bits(a)[5] == Bits(b)[5] && Bits(a)[6] == Bits(b)[6] && Bits(a)[7] == Bits(b)[7];
  }

  method SlicePacket(rb: seq<int>, head: nat, threshold: int, a: array<bv8>, n: nat)
    requires |rb| == RB_SIZE && n <= a.Length
    modifies a
    ensures SlicedPacket(rb, head, threshold, a[..n])
  {
    hide Bits, SlicedBits;
    for t := 0 to n
      invariant forall k :: 0 <= k < t ==> Bits(a[k]) == SlicedBits(rb, head, 40 + 8 * k, threshold)
    {
      var byte := SliceByte(rb, head, 40 + 8 * t, threshold);
      a[t] := byte;
    }
  }

  lemma SamePrefix(rb: seq<int>, head: nat, threshold: int, long: seq<bv8>, short: seq<bv8>)
    requires |rb| == RB_SIZE && |short| <= |long|
    requires SlicedPacket(rb, head, threshold, long) && SlicedPacket(rb, head, threshold, short)
    ensures long[..|short|] == short
  {
    hide Bits, SlicedBits;
    forall t | 0 <= t < |short| ensures long[t] == short[t] {
      SameBitsSameByte(long[t], short[t]);
    }
  }

  /** The samples of the ring carry the bits of the bytes: above the threshold for a one. */
  ghost predicate Carries(rb: seq<int>, head: nat, threshold: int, bytes: seq<bv8>)
    requires |rb| == RB_SIZE
  {
    forall t, c :: 0 <= t < |bytes| && 0 <= c < 8 ==>
      (Bits(bytes[t])[c] <==> rb[(head + 40 + 8 * t + c) % RB_SIZE] > threshold)
  }

  lemma SlicedIsCarried(rb: seq<int>, head: nat, threshold: int, raw: seq<bv8>, sent: seq<bv8>)
    requires |rb| == RB_SIZE && |raw| <= |sent|
    requires SlicedPacket(rb, head, threshold, raw) && Carries(rb, head, threshold, sent)
    ensures raw == sent[..|raw|]
  {
    hide Bits, SlicedBits;
    forall t | 0 <= t < |raw| ensures raw[t] == sent[t] {
      forall c | 0 <= c < 8 ensures Bits(raw[t])[c] == Bits(sent[t])[c] {
        SlicedAt(rb, head, 40 + 8 * t, threshold, c);
      }
      SameBitsSameByte(raw[t], sent[t]);
    }
  }

  /** What a transmitter has whitened for the same channel and sent comes out as it was. */
  lemma ReceivedIsSent(rb: seq<int>, head: nat, threshold: int, channel: bv8, raw: seq<bv8>, pdu: seq<bv8>)
    requires |rb| == RB_SIZE && |raw| <= |pdu|
    requires SlicedPacket(rb, head, threshold, raw) && Carries(rb, head, threshold, Whitened(Seed(channel), pdu))
    ensures Whitened(Seed(channel), raw) == pdu[..|raw|]
  {
    hide *;
    SlicedIsCarried(rb, head, threshold, raw, Whitened(Seed(channel), pdu));
    WhitenedPrefix(Seed(channel), pdu, |raw|);
    WhiteningIsAnInvolution(Seed(channel), pdu[..|raw|]);
  }

  /** The packet length, from the second header byte. */
  function PacketLength(headerByte: bv8): (n: nat)
    ensures n < 64
  {
    (ReverseByte(headerByte) & 0x3F) as nat
  }

  /** The length is the number in the first six bits of the second header byte, the first bit received
  being the lowest. */
  lemma LengthOfBits(b: bv8)
    ensures var s := Bits(b);
            PacketLength(b) == One(s[0]) + 2 * One(s[1]) + 4 * One(s[2]) + 8 * One(s[3]) + 16 * One(s[4]) + 32 * One(s[5])
  {
    ReverseByteReverses(b);
    hide ReverseByte, Bits, One;
    assert PacketLength(b) == Number(LowSix(ReverseByte(b)));
    hide PacketLength, Number, LowSix;
    SixLowBits(ReverseByte(b));
  }

  function One(bit: bool): nat { if bit then 1 else 0 }

  function Number(x: bv8): nat { x as nat }

  function LowSix(r: bv8): bv8 { r & 0x3F }

  lemma SixLowBits(r: bv8)
    ensures var s := Bits(r);
            Number(LowSix(r)) == One(s[7]) + 2 * One(s[6]) + 4 * One(s[5]) + 8 * One(s[4]) + 16 * One(s[3]) + 32 * One(s[2])
  {
    hide *;
    ThreeBits(LowSix(r));
    ThreeBits(Halved(Halved(Halved(LowSix(r)))));
    LowBitsInTurn(r);
    NumberOfZero();
  }

  lemma ThreeBits(x: bv8)
    ensures Number(x) == One(LowBit(x)) + 2 * One(LowBit(Halved(x))) + 4 * One(LowBit(Halved(Halved(x))))
                         + 8 * Number(Halved(Halved(Halved(x))))
  {
    hide *;
    HalvedNumber(x);
    HalvedNumber(Halved(x));
    HalvedNumber(Halved(Halved(x)));
  }

  lemma NumberOfZero()
    ensures Number(0) == 0
  {
  }

  lemma HalvedNumber(x: bv8)
    ensures Number(x) == 2 * Number(Halved(x)) + One(LowBit(x))
  {
  }

  lemma LowBitsInTurn(r: bv8)
    ensures var x0, s := LowSix(r), Bits(r);
            var x1 := Halved(x0); var x2 := Halved(x1); var x3 := Halved(x2); var x4 := Halved(x3); var x5 := Halved(x4);
            && LowBit(x0) == s[7] && LowBit(x1) == s[6] && LowBit(x2) == s[5]
            && LowBit(x3) == s[4] && LowBit(x4) == s[3] && LowBit(x5) == s[2]
            && Halved(x5) == 0
  {
  }

  /** The header, sliced and dewhitened on its own, and the packet, sliced and dewhitened again
      once its length is known: the header is the first two bytes of the packet. */
  method ReceivePacket(rb: seq<int>, head: nat, threshold: int, channel: bv8, addressMatches: bool)
    returns (header: array<bv8>, packet: array<bv8>, length: nat, ghost raw: seq<bv8>)
    requires |rb| == RB_SIZE
    ensures header.Length == 2 && packet.Length == 500
    ensures length == if addressMatches then PacketLength(packet[1]) else 0
    ensures |raw| == length + 5 && SlicedPacket(rb, head, threshold, raw)
    ensures packet[..length + 5] == Whitened(Seed(channel), raw)
    ensures header[..] == packet[..2]
    ensures forall pdu :: |pdu| == length + 5 && Carries(rb, head, threshold, Whitened(Seed(channel), pdu)) ==>
              packet[..length + 5] == pdu
  {
    hide SlicedPacket, Seed, PacketLength, Whitened, Carries;
    header := new bv8[2];
    packet := new bv8[500];
    SlicePacket(rb, head, threshold, header, 2);
    ghost var rawHeader := header[..2];
    assert SlicedPacket(rb, head, threshold, rawHeader);
    Dewhiten(header, 2, channel);
    ghost var plainHeader := header[..2];
    length := if addressMatches then PacketLength(header[1]) else 0;
    SlicePacket(rb, head, threshold, packet, length + 5);
    raw := packet[..length + 5];
    Dewhiten(packet, length + 5, channel);
    SamePrefix(rb, head, threshold, raw, rawHeader);
    WhitenedPrefix(Seed(channel), raw, 2);
    assert packet[..2] == packet[..length + 5][..2];
    assert header[..] == header[..2] == plainHeader;
    assert packet[1] == packet[..2][1];
    forall pdu | |pdu| == length + 5 && Carries(rb, head, threshold, Whitened(Seed(channel), pdu))
      ensures packet[..length + 5] == pdu
    {
      ReceivedIsSent(rb, head, threshold, channel, raw, pdu);
      assert pdu[..|raw|] == pdu;
    }
  }

  // The cyclic redundancy check

  datatype Crc = Crc(c0: bv8, c1: bv8, c2: bv8)

  function CrcBits(c: Crc): (s: seq<bool>)
    ensures |s| == 24
  {
    Bits(c.c0) + Bits(c.c1) + Bits(c.c2)
  }

  /** One bit through the three-byte shift register. */
  function CrcShift(c: Crc, bit: bool): Crc {
    var c0, c1, c2 := ShiftIn(c.c0, c.c1), ShiftIn(c.c1, c.c2), ShiftIn(c.c2, 0);
    if TopBit(c.c0) != bit then Crc(c0, Feedback1(c1), Feedback2(c2)) else Crc(c0, c1, c2)
  }

  function Feedback1(b: bv8): bv8 { b ^ 0x06 }

  function Feedback2(b: bv8): bv8 { b ^ 0x5B }

  lemma EightBits(s: seq<bool>)
    requires |s| == 8
    ensures s == Octet(s[0], s[1], s[2], s[3], s[4], s[5], s[6], s[7])
  {
  }

  lemma OctetXor(b0: bool, b1: bool, b2: bool, b3: bool, b4: bool, b5: bool, b6: bool, b7: bool)
    ensures Xor(Octet(b0, b1, b2, b3, b4, b5, b6, b7), G_MIDDLE) == Octet(b0, b1, b2, b3, b4, !b5, !b6, b7)
    ensures Xor(Octet(b0, b1, b2, b3, b4, b5, b6, b7), G_LOW) == Octet(b0, !b1, b2, !b3, !b4, b5, !b6, !b7)
  {
    hide Octet, Xor;
    EightBits(Xor(Octet(b0, b1, b2, b3, b4, b5, b6, b7), G_MIDDLE));
    EightBits(Xor(Octet(b0, b1, b2, b3, b4, b5, b6, b7), G_LOW));
  }

  lemma FeedbackBits(b: bv8)
    ensures Bits(Feedback1(b)) == Xor(Bits(b), G_MIDDLE) && Bits(Feedback2(b)) == Xor(Bits(b), G_LOW)
  {
    hide Octet, Xor;
    OctetXor((b & 0x80) != 0, (b & 0x40) != 0, (b & 0x20) != 0, (b & 0x10) != 0,
             (b & 0x08) != 0, (b & 0x04) != 0, (b & 0x02) != 0, (b & 0x01) != 0);
  }

  lemma ShiftedBytes(a: Poly, b: Poly, c: Poly)
    requires |a| == |b| == |c| == 8
    ensures var x, y, z := a[1..] + [b[0]], b[1..] + [c[0]], c[1..] + [false];
            && (a + b + c)[1..] + [false] == x + y + z && (a + b + c)[0] == a[0]
            && Xor(x + y + z, G) == x + Xor(y, G_MIDDLE) + Xor(z, G_LOW)
  {
  }

  /** The byte registers are the bit register of the division. */
  lemma CrcShiftIsDivisionStep(c: Crc, bit: bool)
    ensures CrcBits(CrcShift(c, bit)) == DivisionStep(CrcBits(c), bit)
  {
    hide Bits, Xor, ShiftIn, TopBit, Feedback1, Feedback2;
    EndBits(c.c0);
    ShiftedInBits(c.c0, c.c1);
    ShiftedInBits(c.c1, c.c2);
    ShiftedInBits(c.c2, 0);
    FeedbackBits(ShiftIn(c.c1, c.c2));
    FeedbackBits(ShiftIn(c.c2, 0));
    ShiftedBytes(Bits(c.c0), Bits(c.c1), Bits(c.c2));
  }

  /** The check over a packet body: bits in the order of reception. */
  method Crc24(data: seq<bv8>, init: Crc) returns (crc: Crc)
    ensures CrcBits(crc) == RegisterAfter(CrcBits(init), AllBits(data))
    ensures CrcBits(crc) == Remainder(Message(CrcBits(init), AllBits(data)))
  {
    hide Bits, CrcBits, Remainder, Message, RegisterAfter;
    crc := init;
    RegisterAfterNothing(CrcBits(init));
    for counter := 0 to |data|
      invariant CrcBits(crc) == RegisterAfter(CrcBits(init), AllBits(data[..counter]))
    {
      crc := CrcByte(data[counter], crc, CrcBits(init), AllBits(data[..counter]));
      assert data[..counter + 1][..counter] == data[..counter];
    }
    assert data[..|data|] == data;
    RegisterHoldsRemainder(CrcBits(init), AllBits(data));
  }

  method CrcByte(byte: bv8, crc0: Crc, ghost init: Poly, ghost before: Poly) returns (crc: Crc)
    requires |init| == 24 && CrcBits(crc0) == RegisterAfter(init, before)
    ensures CrcBits(crc) == RegisterAfter(init, before + Bits(byte))
  {
    hide Bits, CrcBits, CrcShift, DivisionStep, RegisterAfter, ReverseByte, LowBit, Halved, Backwards;
    crc := crc0;
    var d := ReverseByte(byte);
    ReverseByteReverses(byte);
    ghost var bits := Bits(byte);
    assert before + bits[..0] == before;
    assert Zeros(0) + Bits(d)[..8] == Bits(d);
    for v := 0 to 8
      invariant Bits(d) == Zeros(v) + Backwards(bits)[..8 - v]
      invariant CrcBits(crc) == RegisterAfter(init, before + bits[..v])
    {
      LowBitOfReversed(bits, d, v);
      HalvedBits(d);
      CrcShiftIsDivisionStep(crc, LowBit(d));
      OneBitMore(before, bits, v);
      RegisterAfterOneMore(init, before + bits[..v], bits[v]);
      crc := CrcShift(crc, LowBit(d));
      d := Halved(d);
    }
    assert bits[..8] == bits;
  }

  lemma OneBitMore(before: Poly, bits: Poly, v: nat)
    requires v < |bits|
    ensures before + bits[..v + 1] == (before + bits[..v]) + [bits[v]]
  {
  }

  lemma LowBitOfReversed(bits: seq<bool>, d: bv8, v: nat)
    requires v < 8 && |bits| == 8 && Bits(d) == Zeros(v) + Backwards(bits)[..8 - v]
    ensures LowBit(d) == bits[v]
    ensures [false] + Bits(d)[..7] == Zeros(v + 1) + Backwards(bits)[..7 - v]
  {
    hide Bits, LowBit;
    EndBits(d);
  }
}
