/**
 * Frame reassembly of the DCA1000 capture link (`DCA1000.read`).
 *
 * Packets are discarded until one whose byte counter is a multiple of the
 * clipped frame size; its payload fills slot 0 of a zeroed frame buffer. Each
 * following packet is written to the slot its sequence number selects, until
 * the next packet whose byte counter is such a multiple ends the frame. The
 * socket is replaced by the sequence of packets it would deliver, already
 * decoded; running out of packets is the socket timeout.
 */
module FrameReader {
  import opened Wrappers
  import opened CapturePacket
  import opened Arith

  /** The constants `DCA1000.__init__` derives from the configured frame and packet sizes. */
  datatype Layout = Layout(
    bytesInFrameClipped: nat,    // BYTES_IN_FRAME_CLIPPED
    packetsInFrameClipped: nat,  // PACKETS_IN_FRAME_CLIPPED
    uint16InPacket: nat,         // UINT16_IN_PACKET
    uint16InFrame: nat)          // UINT16_IN_FRAME

  /** What the reassembly relies on: whole slots fit in the frame, and both moduli are zero together. */
  predicate Consistent(l: Layout)
  {
    && l.packetsInFrameClipped * l.uint16InPacket <= l.uint16InFrame
    && (l.bytesInFrameClipped == 0 <==> l.packetsInFrameClipped == 0)
  }

  function LayoutOf(bytesInFrame: nat, bytesInPacket: nat): (l: Layout)
    requires bytesInPacket > 0
    ensures l.bytesInFrameClipped == l.packetsInFrameClipped * bytesInPacket
    ensures l.bytesInFrameClipped <= bytesInFrame < l.bytesInFrameClipped + bytesInPacket
    ensures l.uint16InFrame == bytesInFrame / 2 && l.uint16InPacket == bytesInPacket / 2
    ensures Consistent(l)
  {
    var packets := bytesInFrame / bytesInPacket;
    var l := Layout(packets * bytesInPacket, packets, bytesInPacket / 2, bytesInFrame / 2);
    assert 2 * (packets * (bytesInPacket / 2)) <= packets * bytesInPacket by {
      MulMono(2 * (bytesInPacket / 2), bytesInPacket, packets);
    }
    l
  }

  /** The errors `read` can raise: the socket times out, a modulo by zero, or numpy cannot broadcast the opening payload. */
  datatype ReadError = Timeout | ZeroDivision | BroadcastError

  /** A completed frame, the lost-packet count `read` records, and how many packets were taken from the socket. */
  datatype Frame = Frame(samples: seq<int>, lost: int, consumed: nat)

  function Zeros(n: nat): (z: seq<int>)
    ensures |z| == n && forall k :: 0 <= k < n ==> z[k] == 0
  {
    seq(n, _ => 0)
  }

  /** numpy can assign a payload to a slot of `width` entries when the lengths agree or the payload has one value. */
  predicate Fits(payload: seq<int>, width: nat)
  {
    |payload| == width || |payload| == 1
  }

  /** The value a fitting payload puts at `offset` of its slot (a one-value payload is broadcast). */
  function SlotValue(payload: seq<int>, offset: nat): (v: int)
    requires |payload| == 1 || offset < |payload|
  {
    if |payload| == 1 then payload[0] else payload[offset]
  }

  /** `frame[start:start + width] = payload`; None where numpy raises. */
  function WriteSlot(frame: seq<int>, start: nat, width: nat, payload: seq<int>): (r: Option<seq<int>>)
    requires start + width <= |frame|
    ensures r.Some? <==> Fits(payload, width)
    ensures r.Some? ==> |r.value| == |frame|
    ensures r.Some? ==> forall k :: 0 <= k < |frame| ==>
      r.value[k] == if start <= k < start + width then SlotValue(payload, k - start) else frame[k]
  {
    if !Fits(payload, width) then None
    else Some(frame[..start] + seq(width, j requires 0 <= j < width => SlotValue(payload, j)) + frame[start + width..])
  }

  /** `packet_num - 1` modulo the clipped packet count; Python's `%` with a positive modulus is never negative. */
  function SlotOf(l: Layout, packetNum: int): (s: nat)
    requires l.packetsInFrameClipped > 0
    ensures s < l.packetsInFrameClipped
    ensures packetNum - 1 == l.packetsInFrameClipped * ((packetNum - 1) / l.packetsInFrameClipped) + s
  {
    (packetNum - 1) % l.packetsInFrameClipped
  }

  /** Slot s occupies entries [s*U, (s+1)*U), which lie inside the frame. */
  lemma SlotInFrame(l: Layout, s: nat)
    requires Consistent(l) && s < l.packetsInFrameClipped
    ensures s * l.uint16InPacket + l.uint16InPacket <= l.packetsInFrameClipped * l.uint16InPacket <= l.uint16InFrame
  {
    MulMono(s + 1, l.packetsInFrameClipped, l.uint16InPacket);
  }

  /** A packet whose byte counter is a multiple of the clipped frame size opens or closes a frame. */
  predicate IsBracket(l: Layout, p: Packet)
    requires l.bytesInFrameClipped > 0
    ensures p.byteCount == 0 ==> IsBracket(l, p)
    ensures 0 < p.byteCount < l.bytesInFrameClipped ==> !IsBracket(l, p)
  {
    p.byteCount % l.bytesInFrameClipped == 0
  }

  /** The frame after the opening packet: its payload in slot 0 of a zeroed buffer; numpy raises unless the payload fits. */
  function Opening(l: Layout, payload: seq<int>): (r: Option<seq<int>>)
    requires Consistent(l) && l.packetsInFrameClipped > 0
    ensures r.Some? <==> Fits(payload, l.uint16InPacket)
    ensures r.Some? ==> |r.value| == l.uint16InFrame
    ensures r.Some? ==> forall k :: 0 <= k < l.uint16InFrame ==>
      r.value[k] == if k < l.uint16InPacket then SlotValue(payload, k) else 0
  {
    SlotInFrame(l, 0);
    WriteSlot(Zeros(l.uint16InFrame), 0, l.uint16InPacket, payload)
  }

  /** One packet of the second loop: written to its slot, or left out when numpy raises (the exception is swallowed). */
  function Written(l: Layout, frame: seq<int>, p: Packet): (r: seq<int>)
    requires Consistent(l) && l.packetsInFrameClipped > 0 && |frame| == l.uint16InFrame
    ensures |r| == |frame|
  {
    var s := SlotOf(l, p.packetNum);
    SlotInFrame(l, s);
    match WriteSlot(frame, s * l.uint16InPacket, l.uint16InPacket, p.payload)
    case Some(f) => f
    case None => frame
  }

  /** The frame after the packets `ps` were written in order. */
  function Apply(l: Layout, frame: seq<int>, ps: seq<Packet>): (r: seq<int>)
    requires Consistent(l) && l.packetsInFrameClipped > 0 && |frame| == l.uint16InFrame
    ensures |r| == |frame|
    decreases |ps|
  {
    if ps == [] then frame else Apply(l, Written(l, frame, ps[0]), ps[1..])
  }

  /** The second loop of `read` from packet i on, with `packetsRead` packets counted so far. */
  function Collect(l: Layout, input: seq<Packet>, i: nat, frame: seq<int>, packetsRead: nat): (r: Result<Frame, ReadError>)
    requires Consistent(l) && l.packetsInFrameClipped > 0 && |frame| == l.uint16InFrame && i <= |input|
    ensures r.Err? ==> r.error == Timeout
    ensures r.Ok? ==> |r.value.samples| == |frame| && i < r.value.consumed <= |input|
    decreases |input| - i
  {
    if i == |input| then Err(Timeout)
    else
      var n := packetsRead + 1;
      if IsBracket(l, input[i]) then Ok(Frame(frame, l.packetsInFrameClipped - n, i + 1))
      else Collect(l, input, i + 1, Written(l, frame, input[i]), if n > l.packetsInFrameClipped then 0 else n)
  }

  /** The first loop of `read` from packet i on: skip to the opening packet. */
  function Open(l: Layout, input: seq<Packet>, i: nat): (r: Result<Frame, ReadError>)
    requires Consistent(l) && l.packetsInFrameClipped > 0 && i <= |input|
    ensures r.Err? ==> r.error == Timeout || r.error == BroadcastError
    ensures r.Ok? ==> |r.value.samples| == l.uint16InFrame && i < r.value.consumed <= |input|
    decreases |input| - i
  {
    if i == |input| then Err(Timeout)
    else if IsBracket(l, input[i]) then
      match Opening(l, input[i].payload)
      case None => Err(BroadcastError)
      case Some(frame) => Collect(l, input, i + 1, frame, 1)
    else Open(l, input, i + 1)
  }

  /** What one call of `read` does with the packets the socket delivers. */
  function ReadFrame(l: Layout, input: seq<Packet>): (r: Result<Frame, ReadError>)
    requires Consistent(l)
    ensures l.bytesInFrameClipped == 0 ==> r.Err?
    ensures r.Err? && l.bytesInFrameClipped > 0 ==> r.error == Timeout || r.error == BroadcastError
    ensures r.Ok? ==> |r.value.samples| == l.uint16InFrame && 0 < r.value.consumed <= |input|
  {
    if l.bytesInFrameClipped == 0 then (if input == [] then Err(Timeout) else Err(ZeroDivision))
    else Open(l, input, 0)
  }

  // ---------------------------------------------------------------------------
  // What the reassembly computes
  // ---------------------------------------------------------------------------

  /** Index of the first bracket packet at or after `from`, if any. */
  function FirstBracket(l: Layout, input: seq<Packet>, from: nat): (r: Option<nat>)
    requires l.bytesInFrameClipped > 0 && from <= |input|
    ensures r.Some? ==> from <= r.value < |input| && IsBracket(l, input[r.value])
    ensures r.Some? ==> forall j :: from <= j < r.value ==> !IsBracket(l, input[j])
    ensures r.None? ==> forall j :: from <= j < |input| ==> !IsBracket(l, input[j])
    decreases |input| - from
  {
    if from == |input| then None
    else if IsBracket(l, input[from]) then Some(from)
    else FirstBracket(l, input, from + 1)
  }

  /** Entry k lies in the slot of packet p, and numpy accepts p's payload there. */
  predicate Hits(l: Layout, p: Packet, k: nat)
    requires l.packetsInFrameClipped > 0
  {
    var s := SlotOf(l, p.packetNum);
    Fits(p.payload, l.uint16InPacket) && s * l.uint16InPacket <= k < s * l.uint16InPacket + l.uint16InPacket
  }

  /** The value packet p puts at entry k of its slot. */
  function SlotEntry(l: Layout, p: Packet, k: nat): (v: int)
    requires l.packetsInFrameClipped > 0 && Hits(l, p, k)
  {
    SlotValue(p.payload, k - SlotOf(l, p.packetNum) * l.uint16InPacket)
  }

  /** Writing one packet changes only the entries of its slot, and none when its payload does not fit. */
  lemma WrittenAt(l: Layout, frame: seq<int>, p: Packet, k: nat)
    requires Consistent(l) && l.packetsInFrameClipped > 0 && |frame| == l.uint16InFrame && k < |frame|
    ensures Hits(l, p, k) ==> Written(l, frame, p)[k] == SlotEntry(l, p, k)
    ensures !Hits(l, p, k) ==> Written(l, frame, p)[k] == frame[k]
  {
  }

  /** Writing packets one after another: the last packet is written last. */
  lemma {:induction false} ApplySnoc(l: Layout, frame: seq<int>, ps: seq<Packet>)
    requires Consistent(l) && l.packetsInFrameClipped > 0 && |frame| == l.uint16InFrame && ps != []
    ensures Apply(l, frame, ps) == Written(l, Apply(l, frame, ps[..|ps| - 1]), ps[|ps| - 1])
    decreases |ps|
  {
    if |ps| > 1 {
      var first := Written(l, frame, ps[0]);
      ApplySnoc(l, first, ps[1..]);
      assert ps[1..][..|ps| - 2] == ps[..|ps| - 1][1..];
      assert ps[1..][|ps| - 2] == ps[|ps| - 1];
    }
  }

  /** The index of the last packet of `ps` that writes entry k. */
  function LastWriter(l: Layout, ps: seq<Packet>, k: nat): (r: Option<nat>)
    requires l.packetsInFrameClipped > 0
    ensures r.Some? ==> r.value < |ps| && Hits(l, ps[r.value], k)
    ensures r.Some? ==> forall j :: r.value < j < |ps| ==> !Hits(l, ps[j], k)
    ensures r.None? ==> forall j :: 0 <= j < |ps| ==> !Hits(l, ps[j], k)
    decreases |ps|
  {
    if ps == [] then None
    else if Hits(l, ps[|ps| - 1], k) then Some(|ps| - 1)
    else LastWriter(l, ps[..|ps| - 1], k)
  }

  /** Entry k after writing `ps` holds what the last packet writing it put there, or its old value if none did. */
  lemma {:induction false} ApplyAt(l: Layout, frame: seq<int>, ps: seq<Packet>, k: nat)
    requires Consistent(l) && l.packetsInFrameClipped > 0 && |frame| == l.uint16InFrame && k < |frame|
    ensures LastWriter(l, ps, k).None? ==> Apply(l, frame, ps)[k] == frame[k]
    ensures LastWriter(l, ps, k).Some? ==> Apply(l, frame, ps)[k] == SlotEntry(l, ps[LastWriter(l, ps, k).value], k)
    decreases |ps|
  {
    if ps != [] {
      var init := ps[..|ps| - 1];
      var last := ps[|ps| - 1];
      var before := Apply(l, frame, init);
      ApplySnoc(l, frame, ps);
      assert Apply(l, frame, ps) == Written(l, before, last);
      WrittenAt(l, before, last, k);
      if !Hits(l, last, k) {
        assert LastWriter(l, ps, k) == LastWriter(l, init, k);
        ApplyAt(l, frame, init, k);
        var w := LastWriter(l, init, k);
        if w.Some? {
          assert ps[w.value] == init[w.value];
        }
      } else {
        assert LastWriter(l, ps, k) == Some(|ps| - 1);
      }
    }
  }

  /** Entries from P*U on lie in no slot: writing packets never changes them. */
  lemma ApplyOutside(l: Layout, frame: seq<int>, ps: seq<Packet>, k: nat)
    requires Consistent(l) && l.packetsInFrameClipped > 0 && |frame| == l.uint16InFrame
    requires l.packetsInFrameClipped * l.uint16InPacket <= k < |frame|
    ensures Apply(l, frame, ps)[k] == frame[k]
  {
    ApplyAt(l, frame, ps, k);
    var w := LastWriter(l, ps, k);
    if w.Some? {
      SlotInFrame(l, SlotOf(l, ps[w.value].packetNum));
      assert false;
    }
  }

  /** The counter of lines 109 and 121-122 counts modulo P + 1: resetting past P is wrapping round. */
  lemma CounterStep(packetsRead: nat, k: nat, P: nat)
    requires packetsRead <= P
    ensures ((if packetsRead + 1 > P then 0 else packetsRead + 1) + k) % (P + 1) == (packetsRead + 1 + k) % (P + 1)
  {
    if packetsRead + 1 > P {
      ModShift(k, P + 1);
    }
  }

  /**
   * The second loop stops at the first bracket at or after i, having written the
   * packets before it; without one it times out. The counter runs modulo P + 1,
   * so the lost count is P - 1 minus (packets read + skipped packets) mod (P + 1),
   * which lies in [-1, P-1].
   */
  lemma {:induction false} CollectEnds(l: Layout, input: seq<Packet>, i: nat, frame: seq<int>, packetsRead: nat)
    requires Consistent(l) && l.packetsInFrameClipped > 0 && |frame| == l.uint16InFrame && i <= |input|
    requires packetsRead <= l.packetsInFrameClipped
    ensures FirstBracket(l, input, i).None? ==> Collect(l, input, i, frame, packetsRead) == Err(Timeout)
    ensures FirstBracket(l, input, i).Some? ==>
      var e := FirstBracket(l, input, i).value;
      var r := Collect(l, input, i, frame, packetsRead);
      && r.Ok?
      && r.value.samples == Apply(l, frame, input[i..e])
      && r.value.consumed == e + 1
      && -1 <= r.value.lost < l.packetsInFrameClipped
      && r.value.lost == LostCount(l.packetsInFrameClipped, packetsRead + (e - i))
    decreases |input| - i
  {
    if i < |input| && !IsBracket(l, input[i]) {
      var P := l.packetsInFrameClipped;
      var next := if packetsRead + 1 > P then 0 else packetsRead + 1;
      var written := Written(l, frame, input[i]);
      CollectEnds(l, input, i + 1, written, next);
      assert FirstBracket(l, input, i) == FirstBracket(l, input, i + 1);
      if FirstBracket(l, input, i).Some? {
        var e := FirstBracket(l, input, i).value;
        assert input[i..e][0] == input[i] && input[i..e][1..] == input[i + 1..e];
        CollectLost(l, input, i, frame, packetsRead);
      }
    } else if i < |input| {
      assert input[i..i] == [];
      CollectLost(l, input, i, frame, packetsRead);
    }
  }

  /** The lost count `read` reports once the counter has run over n packets modulo P + 1. */
  function LostCount(P: nat, n: nat): (lost: int)
  {
    P - 1 - n % (P + 1)
  }

  /** The lost count of a completed frame: the counter runs modulo P + 1 from `packetsRead` on. */
  lemma {:induction false} CollectLost(l: Layout, input: seq<Packet>, i: nat, frame: seq<int>, packetsRead: nat)
    requires Consistent(l) && l.packetsInFrameClipped > 0 && |frame| == l.uint16InFrame && i <= |input|
    requires packetsRead <= l.packetsInFrameClipped && FirstBracket(l, input, i).Some?
    ensures Collect(l, input, i, frame, packetsRead).Ok?
    ensures Collect(l, input, i, frame, packetsRead).value.lost ==
      LostCount(l.packetsInFrameClipped, packetsRead + (FirstBracket(l, input, i).value - i))
    decreases |input| - i
  {
    var P := l.packetsInFrameClipped;
    if IsBracket(l, input[i]) {
      ModUnique(packetsRead, 0, packetsRead, P + 1);
    } else {
      var next := if packetsRead + 1 > P then 0 else packetsRead + 1;
      CollectLost(l, input, i + 1, Written(l, frame, input[i]), next);
      assert FirstBracket(l, input, i) == FirstBracket(l, input, i + 1);
      CounterStep(packetsRead, FirstBracket(l, input, i).value - (i + 1), P);
    }
  }

  /** The first loop skips to the first bracket; the frame it opens there is handed to the second loop. */
  lemma {:induction false} OpenEnds(l: Layout, input: seq<Packet>, i: nat)
    requires Consistent(l) && l.packetsInFrameClipped > 0 && i <= |input|
    ensures FirstBracket(l, input, i).None? ==> Open(l, input, i) == Err(Timeout)
    ensures FirstBracket(l, input, i).Some? ==>
      var o := FirstBracket(l, input, i).value;
      Open(l, input, i) ==
        match Opening(l, input[o].payload)
        case None => Err(BroadcastError)
        case Some(frame) => Collect(l, input, o + 1, frame, 1)
    decreases |input| - i
  {
    if i < |input| && !IsBracket(l, input[i]) {
      OpenEnds(l, input, i + 1);
    }
  }

  /**
   * `read` end to end: packets before the first bracket are dropped, the
   * bracket's payload opens the frame in slot 0, the packets up to the next
   * bracket are written to their slots, and that closing bracket's payload is
   * not written.
   */
  lemma ReadFrameBracketed(l: Layout, input: seq<Packet>)
    requires Consistent(l) && l.bytesInFrameClipped > 0
    ensures FirstBracket(l, input, 0).None? ==> ReadFrame(l, input) == Err(Timeout)
    ensures FirstBracket(l, input, 0).Some? ==>
      var o := FirstBracket(l, input, 0).value;
      var opening := Opening(l, input[o].payload);
      && (opening.None? ==> ReadFrame(l, input) == Err(BroadcastError))
      && (opening.Some? && FirstBracket(l, input, o + 1).None? ==> ReadFrame(l, input) == Err(Timeout))
      && (opening.Some? && FirstBracket(l, input, o + 1).Some? ==>
            var e := FirstBracket(l, input, o + 1).value;
            var r := ReadFrame(l, input);
            && r.Ok?
            && r.value.samples == Apply(l, opening.value, input[o + 1..e])
            && r.value.consumed == e + 1
            && -1 <= r.value.lost < l.packetsInFrameClipped)
  {
    OpenEnds(l, input, 0);
    var first := FirstBracket(l, input, 0);
    if first.Some? {
      var o := first.value;
      var opening := Opening(l, input[o].payload);
      if opening.Some? {
        CollectEnds(l, input, o + 1, opening.value, 1);
      }
    }
  }

  /**
   * The lost count `read` reports for a frame bracketed at o and e: P - 1 minus
   * the e - o packets after the opening one, counted modulo P + 1.
   */
  lemma ReadFrameLost(l: Layout, input: seq<Packet>, o: nat, e: nat)
    requires Consistent(l) && l.bytesInFrameClipped > 0 && o < |input|
    requires FirstBracket(l, input, 0) == Some(o) && Opening(l, input[o].payload).Some?
    requires FirstBracket(l, input, o + 1) == Some(e)
    ensures ReadFrame(l, input).Ok? && ReadFrame(l, input).value.lost == LostCount(l.packetsInFrameClipped, e - o)
  {
    OpenEnds(l, input, 0);
    CollectLostFrom(l, input, o, e, Opening(l, input[o].payload).value);
  }

  /** CollectLost for the second loop as `read` starts it: one packet read, from the packet after the opening one. */
  lemma CollectLostFrom(l: Layout, input: seq<Packet>, o: nat, e: nat, frame: seq<int>)
    requires Consistent(l) && l.packetsInFrameClipped > 0 && |frame| == l.uint16InFrame && o < |input|
    requires FirstBracket(l, input, o + 1) == Some(e)
    ensures Collect(l, input, o + 1, frame, 1).Ok?
    ensures Collect(l, input, o + 1, frame, 1).value.lost == LostCount(l.packetsInFrameClipped, e - o)
  {
    CollectLost(l, input, o + 1, frame, 1);
    assert 1 + (e - (o + 1)) == e - o;
  }

  /** A completed frame has UINT16_IN_FRAME entries and a lost count in [-1, P-1]; a zero clipped frame size always fails. */
  lemma ReadFrameShape(l: Layout, input: seq<Packet>)
    requires Consistent(l)
    ensures l.bytesInFrameClipped == 0 ==> ReadFrame(l, input).Err?
    ensures ReadFrame(l, input).Ok? ==>
      && |ReadFrame(l, input).value.samples| == l.uint16InFrame
      && -1 <= ReadFrame(l, input).value.lost < l.packetsInFrameClipped
      && 0 < ReadFrame(l, input).value.consumed <= |input|
  {
    if l.bytesInFrameClipped > 0 {
      ReadFrameBracketed(l, input);
    }
  }

  /** Entries from P*U on lie in no slot: a completed frame holds 0 there. */
  lemma ReadFrameZeroTail(l: Layout, input: seq<Packet>, k: nat)
    requires Consistent(l) && ReadFrame(l, input).Ok?
    requires l.packetsInFrameClipped * l.uint16InPacket <= k < l.uint16InFrame
    ensures |ReadFrame(l, input).value.samples| == l.uint16InFrame && ReadFrame(l, input).value.samples[k] == 0
  {
    ReadFrameBracketed(l, input);
    var o := FirstBracket(l, input, 0).value;
    var opening := Opening(l, input[o].payload).value;
    var e := FirstBracket(l, input, o + 1).value;
    ApplyOutside(l, opening, input[o + 1..e], k);
    SlotInFrame(l, 0);
  }

  /** One step of the first loop: a non-bracket packet is skipped. */
  lemma OpenSkip(l: Layout, input: seq<Packet>, i: nat)
    requires Consistent(l) && l.packetsInFrameClipped > 0 && i < |input| && !IsBracket(l, input[i])
    ensures Open(l, input, i) == Open(l, input, i + 1)
  {
  }

  /** One step of the first loop: a bracket packet opens the frame. */
  lemma OpenAt(l: Layout, input: seq<Packet>, i: nat)
    requires Consistent(l) && l.packetsInFrameClipped > 0 && i < |input| && IsBracket(l, input[i])
    ensures Opening(l, input[i].payload).None? ==> Open(l, input, i) == Err(BroadcastError)
    ensures Opening(l, input[i].payload).Some? ==>
      Open(l, input, i) == Collect(l, input, i + 1, Opening(l, input[i].payload).value, 1)
  {
  }

  /** One step of the second loop: a non-bracket packet is written to its slot. */
  lemma CollectSkip(l: Layout, input: seq<Packet>, i: nat, frame: seq<int>, packetsRead: nat)
    requires Consistent(l) && l.packetsInFrameClipped > 0 && |frame| == l.uint16InFrame
    requires i < |input| && !IsBracket(l, input[i])
    ensures Collect(l, input, i, frame, packetsRead) ==
      Collect(l, input, i + 1, Written(l, frame, input[i]),
        if packetsRead + 1 > l.packetsInFrameClipped then 0 else packetsRead + 1)
  {
  }

  /** One step of the second loop: a bracket packet closes the frame. */
  lemma CollectAt(l: Layout, input: seq<Packet>, i: nat, frame: seq<int>, packetsRead: nat)
    requires Consistent(l) && l.packetsInFrameClipped > 0 && |frame| == l.uint16InFrame
    requires i < |input| && IsBracket(l, input[i])
    ensures Collect(l, input, i, frame, packetsRead) ==
      Ok(Frame(frame, l.packetsInFrameClipped - (packetsRead + 1), i + 1))
  {
  }

  // ---------------------------------------------------------------------------
  // The state-changing reader
  // ---------------------------------------------------------------------------

  /** `frame[start:start + width] = payload` in place; false (and nothing written) where numpy raises. */
  method CopySlot(frame: array<int>, start: nat, width: nat, payload: seq<int>) returns (ok: bool)
    requires start + width <= frame.Length
    modifies frame
    ensures ok == Fits(payload, width)
    ensures frame[..] == if ok then WriteSlot(old(frame[..]), start, width, payload).value else old(frame[..])
  {
    ok := |payload| == width || |payload| == 1;
    if !ok {
      return;
    }
    for j := 0 to width
      invariant forall k :: 0 <= k < frame.Length ==>
        frame[k] == if start <= k < start + j then SlotValue(payload, k - start) else old(frame[k])
    {
      frame[start + j] := SlotValue(payload, j);
    }
    ghost var written := WriteSlot(old(frame[..]), start, width, payload).value;
    assert frame[..] == written;
  }

  class Dca1000 {
    const bytesInFrame: nat
    const bytesInPacket: nat
    const layout: Layout
    var lostPackets: Option<int>

    /** The frame constants of `__init__`; a zero packet size raises ZeroDivisionError there. */
    constructor (bytesInFrame: nat, bytesInPacket: nat)
      requires bytesInPacket > 0
      ensures this.bytesInFrame == bytesInFrame && this.bytesInPacket == bytesInPacket
      ensures layout == LayoutOf(bytesInFrame, bytesInPacket)
      ensures lostPackets == None
    {
      this.bytesInFrame := bytesInFrame;
      this.bytesInPacket := bytesInPacket;
      layout := LayoutOf(bytesInFrame, bytesInPacket);
      lostPackets := None;
    }

    /** Line 104: the opening payload into slot 0 of the zeroed buffer; false where numpy raises. */
    method Start(frame: array<int>, payload: seq<int>) returns (ok: bool)
      requires Consistent(layout) && layout.packetsInFrameClipped > 0
      requires frame[..] == Zeros(layout.uint16InFrame)
      modifies frame
      ensures ok == Opening(layout, payload).Some?
      ensures ok ==> frame[..] == Opening(layout, payload).value
      ensures !ok ==> frame[..] == old(frame[..])
    {
      SlotInFrame(layout, 0);
      ok := CopySlot(frame, 0, layout.uint16InPacket, payload);
    }

    /** The `try` block of the second loop: the packet's payload into the slot its number selects, if numpy accepts it. */
    method Store(frame: array<int>, p: Packet)
      requires Consistent(layout) && layout.packetsInFrameClipped > 0 && frame.Length == layout.uint16InFrame
      modifies frame
      ensures frame[..] == Written(layout, old(frame[..]), p)
    {
      var slot := (p.packetNum - 1) % layout.packetsInFrameClipped;
      SlotInFrame(layout, slot);
      var _ := CopySlot(frame, slot * layout.uint16InPacket, layout.uint16InPacket, p.payload);
    }

    /**
     * The second loop of `read` (lines 107-122): writes the packets from `input[i]`
     * on into `frame` until a bracket packet closes it, then records the lost count.
     */
    method Fill(frame: array<int>, input: seq<Packet>, i: nat, packetsRead: nat)
      returns (r: Result<array<int>, ReadError>, consumed: nat)
      requires Consistent(layout) && layout.packetsInFrameClipped > 0
      requires frame.Length == layout.uint16InFrame && i <= |input| && packetsRead <= layout.packetsInFrameClipped
      modifies this`lostPackets, frame
      ensures Collect(layout, input, i, old(frame[..]), packetsRead).Ok? ==>
        var f := Collect(layout, input, i, old(frame[..]), packetsRead).value;
        r == Ok(frame) && frame[..] == f.samples && lostPackets == Some(f.lost) && consumed == f.consumed
      ensures Collect(layout, input, i, old(frame[..]), packetsRead).Err? ==>
        r == Err(Collect(layout, input, i, old(frame[..]), packetsRead).error) && lostPackets == old(lostPackets)
    {
      ghost var spec := Collect(layout, input, i, frame[..], packetsRead);
      var packets := layout.packetsInFrameClipped;
      var packetsRead := packetsRead;
      var i := i;
      consumed := 0;
      while true
        invariant i <= |input|
        invariant lostPackets == old(lostPackets)
        invariant packetsRead <= packets
        invariant Collect(layout, input, i, frame[..], packetsRead) == spec
        decreases |input| - i
      {
        if i == |input| {
          r := Err(Timeout);
          return;
        }
        var p := input[i];
        if p.byteCount % layout.bytesInFrameClipped == 0 {
          CollectAt(layout, input, i, frame[..], packetsRead);
          i := i + 1;
          packetsRead := packetsRead + 1;
          lostPackets := Some(packets as int - packetsRead);
          r := Ok(frame);
          consumed := i;
          return;
        }
        ghost var before := frame[..];
        ghost var next := if packetsRead + 1 > packets then 0 else packetsRead + 1;
        CollectSkip(layout, input, i, before, packetsRead);
        Store(frame, p);
        assert frame[..] == Written(layout, before, input[i]);
        i := i + 1;
        packetsRead := packetsRead + 1;
        if packetsRead > packets {
          packetsRead := 0;
        }
        assert packetsRead == next;
      }
    }

    /**
     * `read`: returns a fresh frame buffer, or the error `read` raises; only a
     * completed frame updates `lostPackets`.
     */
    method Read(input: seq<Packet>) returns (r: Result<array<int>, ReadError>, consumed: nat)
      requires Consistent(layout)
      modifies this`lostPackets
      ensures ReadFrame(layout, input).Ok? ==>
        && r.Ok? && fresh(r.value)
        && r.value[..] == ReadFrame(layout, input).value.samples
        && lostPackets == Some(ReadFrame(layout, input).value.lost)
        && consumed == ReadFrame(layout, input).value.consumed
      ensures ReadFrame(layout, input).Err? ==>
        r == Err(ReadFrame(layout, input).error) && lostPackets == old(lostPackets)
    {
      consumed := 0;
      if layout.bytesInFrameClipped == 0 {
        r := if input == [] then Err(Timeout) else Err(ZeroDivision);
        return;
      }
      ghost var spec := Open(layout, input, 0);
      assert spec == ReadFrame(layout, input);
      var frame := new int[layout.uint16InFrame](_ => 0);
      var i := 0;
      while true
        invariant i <= |input|
        invariant frame.Length == layout.uint16InFrame
        invariant lostPackets == old(lostPackets)
        invariant frame[..] == Zeros(layout.uint16InFrame)
        invariant Open(layout, input, i) == spec
        decreases |input| - i
      {
        if i == |input| {
          r := Err(Timeout);
          return;
        }
        var p := input[i];
        if p.byteCount % layout.bytesInFrameClipped == 0 {
          OpenAt(layout, input, i);
          var ok := Start(frame, p.payload);
          if !ok {
            r := Err(BroadcastError);
            return;
          }
          i := i + 1;
          assert Collect(layout, input, i, frame[..], 1) == spec;
          break;
        }
        OpenSkip(layout, input, i);
        i := i + 1;
      }
      r, consumed := Fill(frame, input, i, 1);
    }
  }
}
