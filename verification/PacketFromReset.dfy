/** How a frame is reached: the AIS preamble, one bit error allowed, and whole transmissions from
reset. */
module PacketFromReset {
  import opened BitStrings
  import opened PacketFraming

  /** Four alternating pairs and the flag. */
  const PREAMBLE: seq<bool> := [false, true, false, true, false, true, false, true,
                                false, true, true, true, true, true, true, false]

  /** The two bit strings differ in at most one place. */
  predicate DifferOnceAtMost(xs: seq<bool>, ys: seq<bool>)
    requires |xs| == |ys|
  {
    forall i, j :: 0 <= i < j < |xs| && xs[i] != ys[i] ==> xs[j] == ys[j]
  }

  lemma {:induction false} OneMismatch(xs: seq<bool>, ys: seq<bool>)
    requires |xs| == |ys|
    ensures Mismatches(xs, ys) <= 1 <==> DifferOnceAtMost(xs, ys)
  {
    if xs != [] {
      var us, vs := xs[1..], ys[1..];
      OneMismatch(us, vs);
      NoMismatch(us, vs);
      if xs[0] != ys[0] {
        if us == vs {
          assert forall j :: 1 <= j < |xs| ==> xs[j] == us[j - 1] && ys[j] == vs[j - 1];
        } else {
          var j :| 0 <= j < |us| && us[j] != vs[j];
          assert xs[j + 1] != ys[j + 1];
        }
      } else if DifferOnceAtMost(us, vs) {
        assert forall j :: 1 <= j < |xs| ==> xs[j] == us[j - 1] && ys[j] == vs[j - 1];
      } else {
        var i, j :| 0 <= i < j < |us| && us[i] != vs[i] && us[j] != vs[j];
        assert xs[i + 1] != ys[i + 1] && xs[j + 1] != ys[j + 1];
      }
    }
  }

  /** Outside a frame a symbol opens the payload exactly when the last sixteen bits are the preamble
  with at most one of them wrong; nothing else changes but the history. */
  lemma OpensExactlyOnPreamble(r: Receiver, bit: bool)
    requires !r.inPayload
    ensures var last := r.history[49..] + [bit];
            Step(AIS, r, bit) == r.(history := r.history[1..] + [bit], inPayload := DifferOnceAtMost(last, PREAMBLE))
  {
    hide DifferOnceAtMost, Mismatches;
    assert LastBits(Push(r.history, bit), 16) == r.history[49..] + [bit];
    OneMismatch(r.history[49..] + [bit], PREAMBLE);
    assert AIS.preamble == Pattern(PREAMBLE, 1);
  }

  const RESET := Receiver(Silent(), false, [], [])

  /** Silence followed by the first k bits of the preamble. */
  function Begun(k: nat): (r: Receiver)
    requires k <= 16
  {
    var h: History := Zeros(64 - k) + PREAMBLE[..k];
    Receiver(h, k == 16, [], [])
  }

  lemma OneMoreBit(k: nat)
    requires k < 16
    ensures Begun(k).history[1..] + [PREAMBLE[k]] == Begun(k + 1).history
    ensures Begun(k).history[49..] + [PREAMBLE[k]] == Zeros(15 - k) + PREAMBLE[..k + 1]
  {
    ShiftIn(Zeros(64 - k), Zeros(63 - k), Zeros(15 - k), PREAMBLE, k);
  }

  /** Zeros and k bits, one place further. */
  lemma ShiftIn(all: seq<bool>, fewer: seq<bool>, few: seq<bool>, bits: seq<bool>, k: nat)
    requires k < |bits| && k < 16 && all == Zeros(64 - k) && fewer == Zeros(63 - k) && few == Zeros(15 - k)
    ensures (all + bits[..k])[1..] + [bits[k]] == fewer + bits[..k + 1]
    ensures (all + bits[..k])[49..] + [bits[k]] == few + bits[..k + 1]
  {
    assert all[1..] == fewer && all[49..] == few;
  }

  /** Before its last bit the preamble is not mistaken for itself: two places are wrong. */
  lemma NotTooEarly(k: nat)
    requires 1 <= k <= 16
    ensures DifferOnceAtMost(Zeros(16 - k) + PREAMBLE[..k], PREAMBLE) <==> k == 16
  {
    var shifted := Zeros(16 - k) + PREAMBLE[..k];
    if k == 16 {
      assert shifted == PREAMBLE;
    } else {
      var second := if k == 14 then 10 else 3;
      assert shifted[1] != PREAMBLE[1] && shifted[second] != PREAMBLE[second];
    }
  }

  lemma {:induction false} PreambleFed(k: nat)
    requires k <= 16
    ensures Feed(AIS, RESET, PREAMBLE[..k]) == Begun(k)
  {
    hide Step, DifferOnceAtMost;
    if k == 0 {
      assert Begun(0).history == Silent();
    } else {
      PreambleFed(k - 1);
      assert PREAMBLE[..k][..k - 1] == PREAMBLE[..k - 1];
      OpensExactlyOnPreamble(Begun(k - 1), PREAMBLE[k - 1]);
      OneMoreBit(k - 1);
      NotTooEarly(k);
    }
  }

  /** After the whole preamble the receiver is just behind an exact opening flag. */
  lemma PreambleReachesFlag()
    ensures var r := Feed(AIS, RESET, PREAMBLE); AfterFlag(r) && r.delivered == []
  {
    PreambleFed(16);
    hide Feed, Silent;
    assert PREAMBLE[..16] == PREAMBLE;
    FlagIsLast();
    hide Begun, LastBits;
  }

  lemma FlagIsLast()
    ensures var r := Begun(16); r.inPayload && r.packet == [] && r.delivered == [] && LastBits(r.history, 8) == FLAG
  {
    assert Begun(16).history[56..] == PREAMBLE[8..];
    assert PREAMBLE[8..] == FLAG;
  }

  lemma {:induction false} FeedInTurn(m: Matchers, r: Receiver, a: seq<bool>, b: seq<bool>)
    requires m.Valid()
    ensures Feed(m, r, a + b) == Feed(m, Feed(m, r, a), b)
  {
    hide Step;
    if b == [] {
      assert a + b == a;
    } else {
      var init := b[..|b| - 1];
      FeedInTurn(m, r, a, init);
      assert (a + b)[..|a + b| - 1] == a + init;
    }
  }

  /** A whole transmission from reset, preamble, stuffed payload and closing flag: what is delivered is
  one packet, the payload and the first seven bits of the flag, exactly when it fits. */
  lemma TransmissionDelivered(payload: seq<bool>)
    ensures Feed(AIS, RESET, PREAMBLE + (Stuff(payload) + FLAG)).delivered == [payload + FLAG[..7]]
       <==> |payload| + 7 < 2560
  {
    hide Feed, Stuff, AfterFlag, Silent, Matcher.Matches;
    PreambleReachesFlag();
    FeedInTurn(AIS, RESET, PREAMBLE, Stuff(payload) + FLAG);
    OnlyDelivery(Feed(AIS, RESET, PREAMBLE), payload);
  }

  lemma OnlyDelivery(r: Receiver, payload: seq<bool>)
    requires AfterFlag(r) && r.delivered == []
    ensures Feed(AIS, r, Stuff(payload) + FLAG).delivered == [payload + FLAG[..7]] <==> |payload| + 7 < CAPACITY
  {
    hide Feed, Stuff, AfterFlag;
    DeliveredExactlyWhenItFits(r, payload);
    var packet := payload + FLAG[..7];
    assert [] + [packet] == [packet];
  }

  // Packets of a fixed length

  /** Inside a packet, with nothing to unstuff: until the length is reached each bit is collected. */
  lemma {:induction false} FixedLengthCollects(m: Matchers, r: Receiver, bits: seq<bool>, n: nat)
    requires m.unstuff == NeverMatch && m.end == FixedLength(n) && m.Valid()
    requires r.inPayload && r.packet == [] && |bits| < n <= CAPACITY
    ensures var t := Feed(m, r, bits); t.inPayload && t.packet == bits && t.delivered == r.delivered
  {
    hide Step;
    if bits != [] {
      var init, bit := bits[..|bits| - 1], bits[|bits| - 1];
      FixedLengthCollects(m, r, init, n);
      FixedLengthStep(m, Feed(m, r, init), bit, n);
      hide Feed;
      assert init + [bit] == bits;
    }
  }

  lemma FixedLengthStep(m: Matchers, r: Receiver, bit: bool, n: nat)
    requires m.unstuff == NeverMatch && m.end == FixedLength(n) && m.Valid()
    requires r.inPayload && |r.packet| < n <= CAPACITY
    ensures var t, packet := Step(m, r, bit), r.packet + [bit];
            if |packet| < n then t.inPayload && t.packet == packet && t.delivered == r.delivered
            else !t.inPayload && t.packet == [] && t.delivered == r.delivered + [packet]
  {
  }

  /** And exactly the packet of that length is delivered, with its last bit. */
  lemma FixedLengthDelivered(m: Matchers, r: Receiver, bits: seq<bool>)
    requires m.unstuff == NeverMatch && m.end == FixedLength(|bits|) && m.Valid()
    requires r.inPayload && r.packet == [] && 1 <= |bits| <= 2560
    ensures var t := Feed(m, r, bits); !t.inPayload && t.packet == [] && t.delivered == r.delivered + [bits]
  {
    hide Step;
    var init, bit := bits[..|bits| - 1], bits[|bits| - 1];
    FixedLengthCollects(m, r, init, |bits|);
    FixedLengthStep(m, Feed(m, r, init), bit, |bits|);
    hide Feed;
    assert init + [bit] == bits;
  }
}
