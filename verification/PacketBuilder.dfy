/** Framing and bit unstuffing: `PacketBuilder` of firmware/baseband/packet_builder.hpp with the
matchers of the AIS receiver, against HDLC zero insertion. */
module PacketFraming {

  /** `BitHistory`: the last 64 bits, oldest first, so that the last one is the least significant. */
  type History = h: seq<bool> | |h| == 64 witness seq(64, _ => false)

  function Silent(): History { seq(64, _ => false) }

  function Push(h: History, bit: bool): History { h[1..] + [bit] }

  function LastBits(h: History, n: nat): (r: seq<bool>)
    requires n <= 64
    ensures |r| == n
  {
    h[64 - n..]
  }

  function Mismatches(xs: seq<bool>, ys: seq<bool>): nat
    requires |xs| == |ys|
  {
    if xs == [] then 0 else (if xs[0] != ys[0] then 1 else 0) + Mismatches(xs[1..], ys[1..])
  }

  /** `BitPattern`, `FixedLength` and `NeverMatch`. */
  datatype Matcher =
    | Pattern(code: seq<bool>, maximumDistance: nat)
    | FixedLength(length: nat)
    | NeverMatch
  {
    predicate Valid() { Pattern? ==> |code| < 64 }

    predicate Matches(h: History, symbolsReceived: nat)
      requires Valid()
    {
      match this
      case Pattern(code, distance) => Mismatches(LastBits(h, |code|), code) <= distance
      case FixedLength(length) => symbolsReceived >= length
      case NeverMatch => false
    }
  }

  const CAPACITY: nat := 2560

  /** The receiver as a value: `packet` is what has been collected, `delivered` what the payload
      handler has been given so far. */
  datatype Receiver = Receiver(history: History, inPayload: bool, packet: seq<bool>, delivered: seq<seq<bool>>)

  datatype Matchers = Matchers(preamble: Matcher, unstuff: Matcher, end: Matcher) {
    predicate Valid() { preamble.Valid() && unstuff.Valid() && end.Valid() }
  }

  function Collected(packet: seq<bool>, bit: bool): seq<bool> {
    if |packet| < CAPACITY then packet + [bit] else packet
  }

  function Step(m: Matchers, r: Receiver, bit: bool): Receiver
    requires m.Valid()
  {
    var h := Push(r.history, bit);
    if !r.inPayload then
      r.(history := h, inPayload := m.preamble.Matches(h, |r.packet|))
    else
      var packet := if m.unstuff.Matches(h, |r.packet|) then r.packet else Collected(r.packet, bit);
      if m.end.Matches(h, |packet|) then Receiver(h, false, [], r.delivered + [packet])
      else if |packet| >= CAPACITY then Receiver(h, false, [], r.delivered)
      else Receiver(h, true, packet, r.delivered)
  }

  function Feed(m: Matchers, r: Receiver, bits: seq<bool>): Receiver
    requires m.Valid()
  {
    if bits == [] then r else Step(m, Feed(m, r, bits[..|bits| - 1]), bits[|bits| - 1])
  }

  class PacketBuilder {
    const matchers: Matchers
    var history: History
    var inPayload: bool
    var packet: seq<bool>
    var delivered: seq<seq<bool>>

    ghost predicate Valid()
      reads this
    {
      matchers.Valid() && |packet| <= CAPACITY
    }

    ghost function State(): Receiver
      reads this
    {
      Receiver(history, inPayload, packet, delivered)
    }

    constructor (m: Matchers)
      requires m.Valid()
      ensures Valid() && matchers == m && State() == Receiver(Silent(), false, [], [])
    {
      matchers := m;
      history, inPayload, packet, delivered := Silent(), false, [], [];
    }

    method ResetState()
      modifies this
      ensures history == old(history) && delivered == old(delivered) && !inPayload && packet == []
    {
      packet := [];
      inPayload := false;
    }

    method Execute(symbol: bool)
      requires Valid()
      modifies this
      ensures Valid() && State() == Step(matchers, old(State()), symbol)
    {
      history := Push(history, symbol);
      if !inPayload {
        if matchers.preamble.Matches(history, |packet|) {
          inPayload := true;
        }
      } else {
        if !matchers.unstuff.Matches(history, |packet|) {
          if |packet| < CAPACITY { packet := packet + [symbol]; }
        }
        if matchers.end.Matches(history, |packet|) {
          delivered := delivered + [packet];
          ResetState();
        } else if |packet| >= CAPACITY {
          ResetState();
        }
      }
    }
  }

  // Zero insertion

  const ONES5: seq<bool> := [true, true, true, true, true]
  const FLAG: seq<bool> := [false, true, true, true, true, true, true, false]

  /** The number of ones at the end of a bit string. */
  function TrailingOnes(s: seq<bool>): (n: nat)
    ensures n <= |s|
    ensures n < |s| ==> !s[|s| - 1 - n]
    ensures forall k :: |s| - n <= k < |s| ==> s[k]
  {
    if s == [] || !s[|s| - 1] then 0 else 1 + TrailingOnes(s[..|s| - 1])
  }

  /** The transmitter: a zero after every five ones in a row. */
  function Stuff(payload: seq<bool>): seq<bool> {
    if payload == [] then []
    else
      var sent := Stuff(payload[..|payload| - 1]) + [payload[|payload| - 1]];
      if TrailingOnes(sent) >= 5 then sent + [false] else sent
  }

  const AIS := Matchers(
    Pattern([false, true, false, true, false, true, false, true, false, true, true, true, true, true, true, false], 1),
    Pattern([true, true, true, true, true, false], 0),
    Pattern(FLAG, 0))

  /** Just after an exact opening flag. */
  predicate AfterFlag(r: Receiver) {
    r.inPayload && r.packet == [] && LastBits(r.history, 8) == FLAG
  }

  // The exact matchers as conditions on runs of ones

  lemma {:induction false} NoMismatch(xs: seq<bool>, ys: seq<bool>)
    requires |xs| == |ys|
    ensures Mismatches(xs, ys) == 0 <==> xs == ys
  {
    if xs != [] {
      NoMismatch(xs[1..], ys[1..]);
      assert xs == [xs[0]] + xs[1..] && ys == [ys[0]] + ys[1..];
    }
  }

  lemma ExactPattern(h: History, code: seq<bool>, n: nat)
    requires |code| < 64
    ensures Pattern(code, 0).Matches(h, n) <==> LastBits(h, |code|) == code
  {
    NoMismatch(LastBits(h, |code|), code);
  }

  lemma UnstuffBits(h: History, bit: bool)
    ensures LastBits(Push(h, bit), 6) == AIS.unstuff.code <==> !bit && h[59] && h[60] && h[61] && h[62] && h[63]
  {
    var six := LastBits(Push(h, bit), 6);
    assert six == [h[59], h[60], h[61], h[62], h[63], bit];
  }

  lemma EndBits(h: History, bit: bool)
    ensures LastBits(Push(h, bit), 8) == FLAG <==>
            !bit && !h[57] && h[58] && h[59] && h[60] && h[61] && h[62] && h[63]
  {
    var eight := LastBits(Push(h, bit), 8);
    assert eight == [h[57], h[58], h[59], h[60], h[61], h[62], h[63], bit];
  }

  /** The unstuff pattern 111110 and the end pattern 01111110, in terms of the ones before the
      last bit. */
  lemma ExactMatchers(h: History, bit: bool, n: nat)
    ensures AIS.unstuff.Matches(Push(h, bit), n) <==> !bit && TrailingOnes(h) >= 5
    ensures AIS.end.Matches(Push(h, bit), n) <==> !bit && TrailingOnes(h) == 6
  {
    hide Matcher.Matches, TrailingOnes, LastBits, Push;
    ExactPattern(Push(h, bit), AIS.unstuff.code, n);
    ExactPattern(Push(h, bit), FLAG, n);
    UnstuffBits(h, bit);
    EndBits(h, bit);
    OnesAtEnd(h, 5);
    OnesAtEnd(h, 6);
  }

  lemma OnesAtEnd(h: History, n: nat)
    requires n < 64
    ensures TrailingOnes(h) >= n <==> forall k :: 64 - n <= k < 64 ==> h[k]
    ensures TrailingOnes(h) == n <==> !h[63 - n] && forall k :: 64 - n <= k < 64 ==> h[k]
  {
  }

  lemma OnesOfPush(h: History, bit: bool)
    requires TrailingOnes(h) < 64
    ensures TrailingOnes(Push(h, bit)) == if bit then TrailingOnes(h) + 1 else 0
  {
    var g, n := Push(h, bit), TrailingOnes(h);
    assert !h[63 - n] && forall k :: 64 - n <= k < 64 ==> h[k];
    if bit && n < 63 {
      OnesAtEnd(g, n + 1);
    }
  }

  // What one bit does inside a frame

  /** While at most six ones precede, a bit is collected unless it is a stuffed zero, and only a
      zero after exactly six ones ends the packet. */
  lemma StepInFrame(r: Receiver, bit: bool)
    requires r.inPayload && TrailingOnes(r.history) <= 6 && |r.packet| + 1 < CAPACITY
    ensures var ones := TrailingOnes(r.history);
            var packet := if !bit && ones >= 5 then r.packet else r.packet + [bit];
            Step(AIS, r, bit) == if !bit && ones == 6 then Receiver(Push(r.history, bit), false, [], r.delivered + [packet])
                                 else Receiver(Push(r.history, bit), true, packet, r.delivered)
  {
    hide Matcher.Matches;
    ExactMatchers(r.history, bit, |r.packet|);
    ExactMatchers(r.history, bit, |r.packet| + 1);
  }

  lemma FeedOne(r: Receiver, bits: seq<bool>, bit: bool)
    ensures Feed(AIS, r, bits + [bit]) == Step(AIS, Feed(AIS, r, bits), bit)
  {
    assert (bits + [bit])[..|bits|] == bits;
  }

  /** Unstuffing inverts stuffing, bit by bit: after the stuffed payload the packet is the payload. */
  lemma {:induction false} PayloadCollected(r: Receiver, payload: seq<bool>)
    requires AfterFlag(r) && |payload| + 1 < CAPACITY
    ensures var t := Feed(AIS, r, Stuff(payload));
            && t.inPayload && t.packet == payload && t.delivered == r.delivered
            && TrailingOnes(t.history) == TrailingOnes(Stuff(payload)) <= 4
  {
    hide Feed, Step, TrailingOnes, Push, Matcher.Matches;
    if payload == [] {
      NothingFed(r);
    } else {
      var init, bit := payload[..|payload| - 1], payload[|payload| - 1];
      PayloadCollected(r, init);
      var t, sent := Feed(AIS, r, Stuff(init)), Stuff(init) + [bit];
      FeedOne(r, Stuff(init), bit);
      StepInFrame(t, bit);
      OnesOfPush(t.history, bit);
      OnesOfAppend(Stuff(init), bit);
      assert init + [bit] == payload;
      if TrailingOnes(sent) >= 5 {
        FeedOne(r, sent, false);
        StepInFrame(Feed(AIS, r, sent), false);
        OnesOfPush(Feed(AIS, r, sent).history, false);
        OnesOfAppend(sent, false);
      }
    }
  }

  lemma NothingFed(r: Receiver)
    requires AfterFlag(r)
    ensures Feed(AIS, r, []) == r && TrailingOnes(r.history) == 0 && TrailingOnes([]) == 0
  {
    assert r.history[63] == LastBits(r.history, 8)[7];
  }

  lemma OnesOfAppend(s: seq<bool>, bit: bool)
    ensures TrailingOnes(s + [bit]) == if bit then TrailingOnes(s) + 1 else 0
  {
    assert (s + [bit])[..|s|] == s;
  }

  /** The first seven bits of the closing flag are collected as data. */
  lemma {:induction false} FlagBits(r: Receiver, payload: seq<bool>, k: nat)
    requires AfterFlag(r) && |payload| + 7 < CAPACITY && k <= 7
    ensures var t := Feed(AIS, r, Stuff(payload) + FLAG[..k]);
            && t.inPayload && t.packet == payload + FLAG[..k] && t.delivered == r.delivered
            && (k >= 1 ==> TrailingOnes(t.history) == k - 1)
            && (k == 0 ==> TrailingOnes(t.history) <= 4)
  {
    hide Feed, Step, TrailingOnes, Push, Matcher.Matches, Stuff;
    var s := Stuff(payload);
    if k == 0 {
      PayloadCollected(r, payload);
      assert s + FLAG[..0] == s && payload + FLAG[..0] == payload;
    } else {
      FlagBits(r, payload, k - 1);
      NextFlagBit(s, payload, k);
      var t := Feed(AIS, r, s + FLAG[..k - 1]);
      FeedOne(r, s + FLAG[..k - 1], FLAG[k - 1]);
      StepInFrame(t, FLAG[k - 1]);
      OnesOfPush(t.history, FLAG[k - 1]);
    }
  }

  lemma NextFlagBit(s: seq<bool>, payload: seq<bool>, k: nat)
    requires 1 <= k <= 7
    ensures s + FLAG[..k] == (s + FLAG[..k - 1]) + [FLAG[k - 1]]
    ensures payload + FLAG[..k] == (payload + FLAG[..k - 1]) + [FLAG[k - 1]]
    ensures FLAG[k - 1] <==> k != 1
  {
  }

  /** A stuffed payload between flags is delivered once, as the payload followed by the first
      seven bits of the closing flag; its last bit is taken for a stuffed zero. */
  lemma FrameDelivered(r: Receiver, payload: seq<bool>)
    requires AfterFlag(r) && |payload| + 7 < CAPACITY
    ensures var t := Feed(AIS, r, Stuff(payload) + FLAG);
            t.delivered == r.delivered + [payload + FLAG[..7]] && !t.inPayload && t.packet == []
  {
    hide Feed, TrailingOnes, Push, Matcher.Matches, Stuff;
    FlagBits(r, payload, 7);
    var bits := Stuff(payload) + FLAG[..7];
    assert Stuff(payload) + FLAG == bits + [false];
    FeedOne(r, bits, false);
    var t := Feed(AIS, r, bits);
    ExactMatchers(t.history, false, |t.packet|);
  }

  // How long a payload may be

  predicate ShortPackets(r: Receiver, from: nat) {
    && |r.packet| < CAPACITY
    && from <= |r.delivered|
    && forall k :: from <= k < |r.delivered| ==> |r.delivered[k]| < CAPACITY
  }

  lemma StepKeepsPacketsShort(r: Receiver, bit: bool, from: nat)
    requires ShortPackets(r, from)
    ensures ShortPackets(Step(AIS, r, bit), from)
  {
    hide Matcher.Matches, TrailingOnes, Push;
    ExactMatchers(r.history, bit, |r.packet|);
    ExactMatchers(r.history, bit, |r.packet| + 1);
  }

  lemma {:induction false} FeedKeepsPacketsShort(r: Receiver, bits: seq<bool>, from: nat)
    requires ShortPackets(r, from)
    ensures ShortPackets(Feed(AIS, r, bits), from)
  {
    hide Step, ShortPackets;
    if bits != [] {
      FeedKeepsPacketsShort(r, bits[..|bits| - 1], from);
      StepKeepsPacketsShort(Feed(AIS, r, bits[..|bits| - 1]), bits[|bits| - 1], from);
    }
  }

  /** A frame is delivered whole if and only if the payload and seven flag bits together stay
      below the capacity: a payload merely shorter than the capacity is not always delivered. */
  lemma DeliveredExactlyWhenItFits(r: Receiver, payload: seq<bool>)
    requires AfterFlag(r)
    ensures Feed(AIS, r, Stuff(payload) + FLAG).delivered == r.delivered + [payload + FLAG[..7]]
       <==> |payload| + 7 < CAPACITY
  {
    hide Feed, Stuff;
    if |payload| + 7 < CAPACITY {
      FrameDelivered(r, payload);
    } else {
      var n, t, expected := |r.delivered|, Feed(AIS, r, Stuff(payload) + FLAG), payload + FLAG[..7];
      FeedKeepsPacketsShort(r, Stuff(payload) + FLAG, n);
      assert n < |t.delivered| ==> |t.delivered[n]| < CAPACITY;
      assert (r.delivered + [expected])[n] == expected;
    }
  }
}
