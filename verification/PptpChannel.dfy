/** One PPTP session: its four counters, transmission and reception. */
module PptpChannel {
  import opened Bytes
  import opened PptpWire

  const MODULUS := 0x1_0000_0000
  const ALL_ONES: u32 := 0xffff_ffff

  /** The per-session variables of `struct pptp_opt`. */
  datatype Opt = Opt(
    seqSent: u32, seqRecv: u32, ackSent: u32, ackRecv: u32,
    flags: Flags, srcCall: u16, dstCall: u16)

  /** `WRAPPED`: the current number is among the first 256, the last one among the last 256. */
  predicate Wrapped(cur: u32, last: u32) {
    cur < 0x100 && last >= 0xffff_ff00
  }

  /** The check for an expected sequence number, with the 32-bit wrap of `seq_recv + 1`. */
  predicate InSequence(o: Opt, seqno: u32) {
    !(seqno < (o.seqRecv + 1) % MODULUS) && !Wrapped(o.seqRecv, seqno)
  }

  function AfterAck(o: Opt, ack: u32): (r: Opt)
  {
    var o1 := if ack > o.ackRecv then o.(ackRecv := ack) else o;
    if Wrapped(ack, o1.ackRecv) then o1.(ackRecv := ack) else o1
  }

  // ---------- what one call means ----------

  /** Sending takes the next number and acknowledges what was received since the last
      acknowledgement, if anything. */
  function Sent(o: Opt, f: Frame): (r: (Opt, Datagram))
    requires Sendable(f)
    ensures r.1.Valid()
  {
    var seqno := (o.seqSent + 1) % MODULUS;
    (o.(seqSent := seqno, ackSent := o.seqRecv),
     Datagram(o.dstCall, seqno, if o.ackSent == o.seqRecv then None else Some(o.seqRecv), f, o.flags))
  }

  /** What became of a packet; `Delivered` is a call of `ppp_input`. */
  datatype Verdict = Rejected | Dropped | Delivered(frame: Frame, inSequence: bool)

  function Received(o: Opt, p: seq<byte>, slack: seq<byte>): (r: (Opt, Verdict))
    requires HeaderPresent(p) && SLACK <= |slack|
  {
    if !HeaderAccepted(p) || CallId(p) != o.srcCall then (o, Rejected)
    else
      var o1 := if HasAck(p) then AfterAck(o, AckOf(p)) else o;
      if !HasSeq(p) || Truncated(p) then (o1, Dropped)
      else
        var payload := p[HeaderSize(p)..];
        var fresh' := InSequence(o, SeqOf(p));
        if !fresh' && !LooksLikeEcho(payload, slack) then (o1, Dropped)
        else
          var o2 := if fresh' then o1.(seqRecv := SeqOf(p)) else o1;
          var u := Unframe(payload, slack);
          (o2, if u.Some? then Delivered(u.value, fresh') else Dropped)
  }

  /** The session object. */
  class Channel {
    var seqSent: u32
    var seqRecv: u32
    var ackSent: u32
    var ackRecv: u32
    var flags: Flags
    const srcCall: u16
    const dstCall: u16

    function View(): Opt
      reads this
    {
      Opt(seqSent, seqRecv, ackSent, ackRecv, flags, srcCall, dstCall)
    }

    constructor (src: u16, dst: u16)
      ensures View() == Opt(0, 0, 0, 0, Flags(false, false), src, dst)
    {
      seqSent, seqRecv, ackSent, ackRecv := 0, 0, 0, 0;
      flags := Flags(false, false);
      srcCall, dstCall := src, dst;
    }

    /** `data` and `skb` are the buffer as it grows towards its head. */
    method Xmit(frame: Frame) returns (skb: seq<byte>)
      requires Sendable(frame)
      modifies this
      ensures View() == Sent(old(View()), frame).0
      ensures skb == Sent(old(View()), frame).1.Octets()
    {
      var islcp := U16At(frame, 0) == PPP_LCP && 1 <= frame[2] && frame[2] <= 7;
      skb := frame;
      if flags.compProt && frame[0] == 0 && !islcp {
        skb := skb[1..];
      }
      if !flags.compAc || islcp {
        skb := [PPP_ALLSTATIONS, PPP_UI] + skb;
      }
      var len := |skb|;
      var received := seqRecv;
      seqSent := if seqSent == ALL_ONES then 0 else seqSent + 1;
      var ver := GRE_VER;
      var tail := [];
      if ackSent != received {
        ver := ver + FLAG_A;
        tail := Be32(received);
        ackSent := received;
      }
      skb := [FLAG_K + FLAG_S, ver] + Be16(GRE_PROTO) + Be16(len % 0x1_0000) + Be16(dstCall) + Be32(seqSent)
             + tail + skb;
    }

    method Rcv(skb: seq<byte>, slack: seq<byte>) returns (v: Verdict)
      requires HeaderPresent(skb) && SLACK <= |slack|
      modifies this
      ensures (View(), v) == Received(old(View()), skb, slack)
    {
      if !HeaderAccepted(skb) || CallId(skb) != srcCall {
        return Rejected;
      }
      if HasAck(skb) {
        var ack := if HasSeq(skb) then U32At(skb, 12) else U32At(skb, 8);
        if ack > ackRecv {
          ackRecv := ack;
        }
        if Wrapped(ack, ackRecv) {
          ackRecv := ack;
        }
      }
      if !HasSeq(skb) {
        return Dropped;
      }
      var headersize := 16;
      if !HasAck(skb) {
        headersize := headersize - 4;
      }
      if |skb| - headersize < U16At(skb, 4) {
        return Dropped;
      }
      var seqno := U32At(skb, 8);
      var data := skb[headersize..];
      var payload := data;
      var expected := if seqRecv == ALL_ONES then 0 else seqRecv + 1;
      var inSequence := true;
      if seqno < expected || Wrapped(seqRecv, seqno) {
        if !LooksLikeEcho(payload, slack) {
          return Dropped;
        }
        inSequence := false;
      } else {
        seqRecv := seqno;
      }
      if StartsUncompressed(payload, slack) {
        if |data| < 3 {
          return Dropped;
        }
        data := data[2..];
      }
      if Peek(data, slack, 0) % 2 == 1 {
        data := [0] + data;
      }
      return Delivered(data, inSequence);
    }
  }

  /** Sending and receiving composed: a frame that arrives in sequence is handed over unchanged
      exactly when it is restorable, whatever flags it was sent under and whether or not it carried
      an acknowledgement. */
  lemma FrameRoundTrip(o: Opt, r: Opt, f: Frame, slack: seq<byte>)
    requires Sendable(f) && SLACK <= |slack|
    requires r.srcCall == o.dstCall && InSequence(r, (o.seqSent + 1) % MODULUS)
    ensures
      var d := Sent(o, f).1;
      Received(r, d.Octets(), slack).1 == Delivered(f, true) <==> Restorable(f, o.flags, slack[0])
  {
    var d := Sent(o, f).1;
    HeaderRoundTrip(d);
    PayloadRoundTrip(f, o.flags, slack);
  }

  /** Short of the last sequence number an old packet is never taken for a new one. At the last number
      every old packet is. */
  lemma ReplayAcceptedIff(o: Opt, seqno: u32)
    requires seqno <= o.seqRecv
    ensures InSequence(o, seqno) <==> o.seqRecv == ALL_ONES
  {
  }

  /** A frame that was sent and received is acknowledged by the next transmission in the other
      direction, and the acknowledgement is recorded if it is new. */
  lemma AckRoundTrip(a: Opt, b: Opt, f: Frame, slack: seq<byte>)
    requires Sendable(f) && SLACK <= |slack|
    requires a.srcCall == b.dstCall && b.ackSent != b.seqRecv
    ensures
      var d := Sent(b, f).1;
      Received(a, d.Octets(), slack).0.ackRecv
      == if b.seqRecv > a.ackRecv || (b.seqRecv < 0x100 && a.ackRecv >= 0xffff_ff00) then b.seqRecv else a.ackRecv
  {
    HeaderRoundTrip(Sent(b, f).1);
  }
}
